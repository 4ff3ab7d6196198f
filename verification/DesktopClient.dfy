/** The Desktop client: one connection at a time, numbered by epochs, with waiters registered before their
    request is written and completed by a response or by the end of their connection
    (agent/codex_desktop_client_state.go, agent/codex_desktop_client_send.go,
    agent/codex_desktop_client_read.go).  Every critical section is one step; a frame write holds the write
    lock from its start to its end. */
module DesktopClient {
  import opened Json

  datatype Id = Id(text: string)
  datatype Kind = Call | Discovery

  /** A place in the table of waiting calls or of waiting discoveries. */
  datatype Key = Key(kind: Kind, id: Id)

  /** A snapshot of a connection: which one, its epoch, and whether it may be used before initialization. */
  datatype Ref = Ref(conn: nat, epoch: nat, connecting: bool)

  /** `waiting` holds the waiters, objects or numbers that stand for them; `written` are the waiters marked as written;
      `identified` says that a client id has been assigned. */
  datatype Client<W> = Client(
    conn: Option<nat>, epoch: nat, identified: bool, connecting: bool, closed: bool,
    waiting: map<Key, W>, written: set<W>)

  predicate Connected<W>(c: Client<W>) {
    !c.closed && !c.connecting && c.conn.Some? && c.identified
  }

  predicate SameConnection<W>(c: Client<W>, r: Ref) {
    c.conn == Some(r.conn) && c.epoch == r.epoch
  }

  predicate Matches<W>(c: Client<W>, r: Ref) {
    && !c.closed && SameConnection(c, r)
    && (Connected(c) || (r.connecting && c.connecting))
  }

  // ---- Critical sections ----

  function BeginConnect<W>(c: Client<W>): Option<Client<W>> {
    if c.closed || Connected(c) || c.connecting then None else Some(c.(connecting := true))
  }

  function DialFailed<W>(c: Client<W>): Client<W> {
    c.(connecting := false)
  }

  function Install<W>(c: Client<W>, conn: nat): (Client<W>, Option<Ref>) {
    if c.closed then (c.(connecting := false), None)
    else (c.(epoch := c.epoch + 1, conn := Some(conn), identified := false), Some(Ref(conn, c.epoch + 1, true)))
  }

  function FinishInitialize<W>(c: Client<W>, r: Ref): Option<Client<W>> {
    if SameConnection(c, r) then Some(c.(identified := true, connecting := false)) else None
  }

  function Register<W>(c: Client<W>, k: Key, waiter: W, r: Ref): Option<Client<W>> {
    if !Matches(c, r) || k in c.waiting then None else Some(c.(waiting := c.waiting[k := waiter]))
  }

  /** Removes the waiter unless its place has been taken over. */
  function Remove<W(==)>(c: Client<W>, k: Key, waiter: W): Client<W> {
    if k in c.waiting && c.waiting[k] == waiter then c.(waiting := c.waiting - {k}) else c
  }

  /** A response takes whoever waits under its id. */
  function Respond<W>(c: Client<W>, k: Key): (Client<W>, Option<W>) {
    (c.(waiting := c.waiting - {k}), if k in c.waiting then Some(c.waiting[k]) else None)
  }

  function At<W(==)>(c: Client<W>, k: Key): set<W> {
    if k in c.waiting then {c.waiting[k]} else {}
  }

  /** A fully written frame marks every waiter registered under its id. */
  function MarkWritten<W(==)>(c: Client<W>, id: Id): Client<W> {
    c.(written := c.written + At(c, Key(Call, id)) + At(c, Key(Discovery, id)))
  }

  /** Takes down the connection that the snapshot names, and no other. */
  function Disconnect<W>(c: Client<W>, r: Ref): (Client<W>, map<Key, W>) {
    if !SameConnection(c, r) then (c, map[])
    else (c.(conn := None, identified := false, connecting := false, waiting := map[]), c.waiting)
  }

  // ---- The client among its callers, its reader and its writers ----

  /** A request frame of a waiter, or a frame that answers or broadcasts under somebody else's id. */
  datatype Frame = Own(waiter: nat, id: Id) | Other(id: Id)

  datatype Lock = Free | Writing(ref: Ref, frame: Frame)

  /** A registered request that has not been written yet. */
  datatype Draft = Draft(ref: Ref, id: Id)

  /** A decision to send a result to a waiter, taken in step `at` for the place `key`: because the
      connection was lost, or with an answer. */
  datatype Job = Job(at: nat, key: Key, waiter: nat, lost: bool)

  datatype Outcome = Answered | NotDelivered | DeliveryUnknown

  datatype System = System(
    client: Client<nat>, lock: Lock, dialing: bool, drafts: map<nat, Draft>,
    waiters: nat, conns: nat, clock: nat,
    jobs: set<Job>, sent: map<Job, Outcome>, frames: set<nat>)

  datatype Step =
    | DoBeginConnect
    | DoDialFailed
    | DoInstall
    | DoFinishInitialize(ref: Ref)
    | DoRegister(key: Key, ref: Ref)
    | DoStartRequest(waiter: nat)
    | DoStartOther(ref: Ref, id: Id)
    | DoFinishWrite(ok: bool)
    | DoRemove(key: Key, waiter: nat)
    | DoRespond(key: Key)
    | DoTeardown(ref: Ref)
    | DoClose
    | DoSend(job: Job)

  function NewSystem(): System {
    System(Client(None, 0, false, false, false, map[], {}), Free, false, map[], 0, 0, 0, {}, map[], {})
  }

  /** A dialing client dials once; a connection is written by one writer at a time; a teardown takes the
      write lock; a decided send is done once. */
  predicate Enabled(s: System, a: Step) {
    match a
    case DoDialFailed => s.dialing
    case DoInstall => s.dialing
    case DoStartRequest(w) => s.lock.Free? && w in s.drafts
    case DoStartOther(_, _) => s.lock.Free?
    case DoFinishWrite(_) => s.lock.Writing?
    case DoTeardown(_) => s.lock.Free?
    case DoSend(j) => j in s.jobs && j !in s.sent
    case _ => true
  }

  /** One send per detached waiter. */
  function LostJobs(at: nat, detached: map<Key, nat>): set<Job> {
    set k | k in detached :: Job(at, k, detached[k], true)
  }

  function Teardown(s: System, r: Ref): System {
    var (c, detached) := Disconnect(s.client, r);
    s.(client := c, jobs := s.jobs + LostJobs(s.clock, detached))
  }

  function DoneWriting(s: System, ok: bool): System
    requires s.lock.Writing?
  {
    var frame := s.lock.frame;
    if ok then
      s.(client := MarkWritten(s.client, frame.id), lock := Free,
         frames := s.frames + if frame.Own? then {frame.waiter} else {})
    else Teardown(s, s.lock.ref).(lock := Free)
  }

  function StartRequest(s: System, w: nat): System
    requires w in s.drafts
  {
    var d := s.drafts[w];
    s.(drafts := s.drafts - {w}, lock := if Matches(s.client, d.ref) then Writing(d.ref, Own(w, d.id)) else s.lock)
  }

  function StartOther(s: System, r: Ref, id: Id): System {
    s.(lock := if Matches(s.client, r) then Writing(r, Other(id)) else s.lock)
  }

  function Registering(s: System, k: Key, r: Ref): System {
    match Register(s.client, k, s.waiters, r)
    case None => s.(waiters := s.waiters + 1)
    case Some(c) => s.(client := c, waiters := s.waiters + 1, drafts := s.drafts[s.waiters := Draft(r, k.id)])
  }

  function Responding(s: System, k: Key): System {
    match Respond(s.client, k)
    case (c, None) => s.(client := c)
    case (c, Some(w)) => s.(client := c, jobs := s.jobs + {Job(s.clock, k, w, false)})
  }

  /** The error of a lost waiter is chosen when it is sent. */
  function OutcomeOf(c: Client<nat>, j: Job): Outcome {
    if !j.lost then Answered else if j.waiter in c.written then DeliveryUnknown else NotDelivered
  }

  function Connecting(s: System): System {
    match BeginConnect(s.client)
    case None => s
    case Some(c) => s.(client := c, dialing := true)
  }

  function Initialized(s: System, r: Ref): System {
    match FinishInitialize(s.client, r)
    case None => s
    case Some(c) => s.(client := c)
  }

  function Act(s: System, a: Step): System
    requires Enabled(s, a)
  {
    match a
    case DoBeginConnect => Connecting(s)
    case DoDialFailed => s.(client := DialFailed(s.client), dialing := false)
    case DoInstall => s.(client := Install(s.client, s.conns).0, conns := s.conns + 1, dialing := false)
    case DoFinishInitialize(r) => Initialized(s, r)
    case DoRegister(k, r) => Registering(s, k, r)
    case DoStartRequest(w) => StartRequest(s, w)
    case DoStartOther(r, id) => StartOther(s, r, id)
    case DoFinishWrite(ok) => DoneWriting(s, ok)
    case DoRemove(k, w) => s.(client := Remove(s.client, k, w))
    case DoRespond(k) => Responding(s, k)
    case DoTeardown(r) => Teardown(s, r)
    case DoClose => s.(client := s.client.(closed := true))
    case DoSend(j) => s.(sent := s.sent[j := OutcomeOf(s.client, j)])
  }

  function Do(s: System, a: Step): System
    requires Enabled(s, a)
  {
    var n := Act(s, a);
    n.(clock := s.clock + 1)
  }
}
