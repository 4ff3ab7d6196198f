/** String normalisation used at the protocol boundary: surrounding white space and ASCII case. */
module Text {

  predicate IsSpace(c: char) {
    c == ' ' || '\t' <= c <= '\r'
  }

  /** Strips white space at both ends. */
  function Trim(s: string): (r: string)
    ensures r == "" || (!IsSpace(r[0]) && !IsSpace(r[|r| - 1]))
    ensures |r| <= |s|
    decreases |s|
  {
    if s == "" then ""
    else if IsSpace(s[0]) then Trim(s[1..])
    else if IsSpace(s[|s| - 1]) then Trim(s[..|s| - 1])
    else s
  }

  function LowerChar(c: char): char {
    if 'A' <= c <= 'Z' then c - 'A' + 'a' else c
  }

  function Lower(s: string): (r: string)
    ensures |r| == |s|
  {
    seq(|s|, i requires 0 <= i < |s| => LowerChar(s[i]))
  }

  /** Lower case changes the capital letters of ASCII and nothing else. */
  lemma {:induction false} LowerExactly(s: string, i: nat)
    requires i < |s|
    ensures Lower(s)[i] as int == if 'A' <= s[i] <= 'Z' then s[i] as int + 32 else s[i] as int
  {
    assert 'a' as int - 'A' as int == 32;
  }

  /** Trimming takes white space off both ends and nothing else; a text that is all white space becomes
      empty. */
  lemma {:induction false} TrimStrips(s: string) returns (a: nat, b: nat)
    ensures a <= b <= |s| && Trim(s) == s[a..b]
    ensures forall i :: (0 <= i < a || b <= i < |s|) ==> IsSpace(s[i])
    ensures a < b ==> !IsSpace(s[a]) && !IsSpace(s[b - 1])
    decreases |s|
  {
    a, b := 0, |s|;
    if s != "" {
      if IsSpace(s[0]) {
        a, b := TrimStrips(s[1..]);
        assert s[1..][a..b] == s[a + 1..b + 1];
        forall i | (0 <= i < a + 1 || b + 1 <= i < |s|) ensures IsSpace(s[i]) {
          if i > 0 {
            assert IsSpace(s[1..][i - 1]);
          }
        }
        a, b := a + 1, b + 1;
      } else if IsSpace(s[|s| - 1]) {
        a, b := TrimStrips(s[..|s| - 1]);
        assert s[..|s| - 1][a..b] == s[a..b];
        forall i | (0 <= i < a || b <= i < |s|) ensures IsSpace(s[i]) {
          if i < |s| - 1 {
            assert IsSpace(s[..|s| - 1][i]);
          }
        }
      }
    }
  }
}
