/**
 The download queue: the states of the engine's torrents and the atomic steps
 that change them. Two rules admit a torrent to `Downloading`: the first check
 counts the torrents ahead of it, a resume or dequeue counts the active ones.
 */
module QueuePolicy {
  import opened Prelude

  datatype TorrentState =
    | MetadataDownloading | Checking | Queued | Downloading | Seeding | Completed | Paused | Error | Moving

  /** `complete` and `verified` are what the piece manager reports. */
  datatype Torrent = Torrent(state: TorrentState, complete: bool, verified: bool, addedAt: nat)

  type Torrents = map<string, Torrent>

  /** A limit of 0 means no limit. `clock` is later than every `addedAt`. */
  datatype Engine = Engine(torrents: Torrents, maxDl: nat, maxUl: nat, clock: nat)

  function NewEngine(maxDl: nat, maxUl: nat): Engine {
    Engine(map[], maxDl, maxUl, 0)
  }

  // -------------------------------------------------------------- the two counts

  predicate ActiveDownload(t: Torrent) {
    (t.state.Downloading? || t.state.Checking?) && !t.complete
  }

  predicate ActiveUpload(t: Torrent) {
    (t.state.Seeding? || t.state.Completed? || t.state.Checking?) && t.complete
  }

  predicate Downloads(t: Torrent) {
    t.state.Downloading? && !t.complete
  }

  predicate AheadForDownload(t: Torrent, addedAt: nat) {
    !t.complete && t.addedAt < addedAt && (t.state.Downloading? || t.state.Checking? || t.state.Queued?)
  }

  predicate AheadForUpload(t: Torrent, addedAt: nat) {
    && t.complete && t.addedAt < addedAt
    && (t.state.Seeding? || t.state.Completed? || t.state.Checking? || t.state.Queued?)
  }

  function CountActiveDownloads(ts: Torrents): nat {
    |set h | h in ts && ActiveDownload(ts[h])|
  }

  function CountActiveUploads(ts: Torrents): nat {
    |set h | h in ts && ActiveUpload(ts[h])|
  }

  function QueuePositionDownload(ts: Torrents, addedAt: nat): nat {
    |set h | h in ts && AheadForDownload(ts[h], addedAt)|
  }

  function QueuePositionUpload(ts: Torrents, addedAt: nat): nat {
    |set h | h in ts && AheadForUpload(ts[h], addedAt)|
  }

  predicate Reached(limit: nat, count: nat) {
    limit > 0 && count >= limit
  }

  // ------------------------------------------------------------------- the steps

  datatype Op =
    | Add(hash: string, paused: bool)
    | Progress(hash: string, complete: bool, verified: bool)
    | FinishVerification(hash: string)
    | Start(hash: string)
    | PieceCompleted(hash: string, complete: bool)
    | Tick(hash: string, interested: bool, noSeed: bool)
    | Pause(hash: string)
    | Resume(hash: string)
    | Remove(hash: string)
    | BeginMove(hash: string)
    | EndMove(hash: string)
    | StartNext(pick: string)

  function With(e: Engine, h: string, t: Torrent): Engine {
    e.(torrents := e.torrents[h := t])
  }

  /** A torrent leaving its first check, by its position in the queue. */
  function Admitted(e: Engine, t: Torrent): TorrentState {
    if t.complete then
      if Reached(e.maxUl, QueuePositionUpload(e.torrents, t.addedAt)) then Queued else Completed
    else
      if Reached(e.maxDl, QueuePositionDownload(e.torrents, t.addedAt)) then Queued else Downloading
  }

  /** A resumed torrent, by the number of active ones. It may be active itself. */
  function Resumed(e: Engine, t: Torrent): TorrentState {
    if t.complete then
      if Reached(e.maxUl, CountActiveUploads(e.torrents)) then Queued else Completed
    else
      if Reached(e.maxDl, CountActiveDownloads(e.torrents)) then Queued else Downloading
  }

  /** What one pass of the run loop makes of a torrent's state. */
  function Ticked(t: Torrent, interested: bool, noSeed: bool): TorrentState {
    if !t.complete then t.state
    else
      var s := if t.state.Downloading? then Completed else t.state;
      if s.Seeding? && !interested then Completed
      else if s.Completed? && interested && !noSeed then Seeding
      else s
  }

  /** A queued torrent whose kind has a free slot. */
  predicate Fits(e: Engine, h: string) {
    && h in e.torrents && e.torrents[h].state.Queued?
    && !if e.torrents[h].complete then Reached(e.maxUl, CountActiveUploads(e.torrents))
        else Reached(e.maxDl, CountActiveDownloads(e.torrents))
  }

  /** `h` is a torrent that start-next may choose: the oldest that fits. */
  ghost predicate Oldest(e: Engine, h: string) {
    Fits(e, h) && forall other :: Fits(e, other) ==> e.torrents[h].addedAt <= e.torrents[other].addedAt
  }

  /** Only start-next constrains its argument; a step on an unknown hash changes nothing. */
  ghost predicate Enabled(e: Engine, op: Op) {
    op.StartNext? ==> Oldest(e, op.pick) && (e.maxDl > 0 || e.maxUl > 0)
  }

  function Step(e: Engine, op: Op): Engine {
    match op
    case Add(h, paused) =>
      if h in e.torrents then e
      else With(e, h, Torrent(if paused then Paused else Checking, false, false, e.clock)).(clock := e.clock + 1)
    case StartNext(h) =>
      if h !in e.torrents then e
      else With(e, h, e.torrents[h].(state := if e.torrents[h].complete then Completed else Downloading))
    case Remove(h) => e.(torrents := e.torrents - {h})
    case _ =>
      if op.hash !in e.torrents then e
      else With(e, op.hash, Changed(e, e.torrents[op.hash], op))
  }

  /** What the remaining steps do to the one torrent they concern. */
  function Changed(e: Engine, t: Torrent, op: Op): Torrent
    requires !op.Add? && !op.StartNext? && !op.Remove?
  {
    match op
    case Progress(_, complete, verified) => t.(complete := t.complete || complete, verified := t.verified || verified)
    case FinishVerification(_) =>
      if t.state.Checking? then t.(verified := true, state := Admitted(e, t)) else t.(verified := true)
    case Start(_) => if t.state.Checking? && t.verified then t.(state := Admitted(e, t)) else t
    case PieceCompleted(_, complete) =>
      var done := t.complete || complete;
      t.(complete := done, state := if done && t.state.Downloading? then Completed else t.state)
    case Tick(_, interested, noSeed) => t.(state := Ticked(t, interested, noSeed))
    case Pause(_) => t.(state := Paused)
    case Resume(_) => t.(state := Resumed(e, t))
    case BeginMove(_) => t.(state := Moving)
    case EndMove(_) => if t.state.Moving? then t.(state := Completed) else t
  }

  /** `e'` is `e` after start-next: an oldest fitting torrent runs, or none fits. */
  ghost predicate Handed(e: Engine, started: Option<string>, e': Engine) {
    if e.maxDl == 0 && e.maxUl == 0 then started == None && e' == e
    else if started.Some? then Enabled(e, StartNext(started.value)) && e' == Step(e, StartNext(started.value))
    else e' == e && forall h :: h in e.torrents ==> !Fits(e, h)
  }

  function Run(e: Engine, ops: seq<Op>): Engine
    decreases ops
  {
    if ops == [] then e else Run(Step(e, ops[0]), ops[1..])
  }

  /** Every start-next step of the run chooses an oldest fitting torrent. */
  ghost predicate Possible(e: Engine, ops: seq<Op>)
    decreases ops
  {
    ops == [] || (Enabled(e, ops[0]) && Possible(Step(e, ops[0]), ops[1..]))
  }

  /** Every torrent has its own `addedAt`, in the past. */
  ghost predicate ClockOk(e: Engine) {
    && (forall h :: h in e.torrents ==> e.torrents[h].addedAt < e.clock)
    && forall h, k :: h in e.torrents && k in e.torrents && h != k ==> e.torrents[h].addedAt != e.torrents[k].addedAt
  }

  lemma StepKeepsClock(e: Engine, op: Op)
    requires ClockOk(e)
    ensures ClockOk(Step(e, op))
  {
    hide Admitted, Resumed, Ticked;
  }

  // -------------------------------------------------------------------- fairness

  /** The queued torrents of the same kind that were added before this one. */
  ghost function QueuedBefore(e: Engine, h: string): set<string>
    requires h in e.torrents
  {
    set k | k in e.torrents && e.torrents[k].state.Queued? && e.torrents[k].complete == e.torrents[h].complete
      && e.torrents[k].addedAt < e.torrents[h].addedAt
  }

  /** Start-next serves first come first: starting another torrent of its kind brings a queued one nearer by one. */
  lemma DequeueAdvances(e: Engine, pick: string, h: string)
    requires ClockOk(e) && Enabled(e, StartNext(pick)) && pick != h
    requires h in e.torrents && e.torrents[h].state.Queued? && e.torrents[h].complete == e.torrents[pick].complete
    ensures |QueuedBefore(Step(e, StartNext(pick)), h)| == |QueuedBefore(e, h)| - 1
  {
    hide CountActiveDownloads, CountActiveUploads;
    var e' := Step(e, StartNext(pick));
    assert Fits(e, h);
    assert pick in QueuedBefore(e, h);
    assert QueuedBefore(e', h) == QueuedBefore(e, h) - {pick};
  }

  ghost predicate NoneQueued(e: Engine) {
    forall h :: h in e.torrents ==> !e.torrents[h].state.Queued?
  }

  /**
   With both limits off, start-next returns at once; nothing is stranded by that,
   as no torrent is ever queued.
   */
  lemma {:induction false} UnlimitedNeverQueues(e: Engine, ops: seq<Op>)
    requires e.maxDl == 0 && e.maxUl == 0 && NoneQueued(e) && Possible(e, ops)
    ensures NoneQueued(Run(e, ops))
    decreases ops
  {
    if ops != [] {
      var e' := Step(e, ops[0]);
      assert NoneQueued(e') && e'.maxDl == 0 && e'.maxUl == 0;
      UnlimitedNeverQueues(e', ops[1..]);
    }
  }
}
