/**
 The upload limit of the queue: exactly which steps and which runs break it, and two
 runs that do. Only admission, resume and start-next look for a free slot.
 */
module UploadLimit {
  import opened QueuePolicy

  /** With all its pieces, a torrent in one of these states is an active upload. */
  predicate UploadsWhenComplete(state: TorrentState) {
    state.Checking? || state.Seeding? || state.Completed?
  }

  /** The step makes a torrent an active upload without asking for a slot. */
  predicate TakesUnasked(e: Engine, op: Op) {
    !op.StartNext? && op.hash in e.torrents &&
    var t := e.torrents[op.hash];
    match op
    case Progress(_, complete, _) => complete && !t.complete && UploadsWhenComplete(t.state)
    case PieceCompleted(_, complete) =>
      if t.state.Downloading? then t.complete || complete
      else complete && !t.complete && UploadsWhenComplete(t.state)
    case Tick(_, _, _) => t.state.Downloading? && t.complete
    case EndMove(_) => t.state.Moving? && t.complete
    case _ => false
  }

  function Uploads(ts: Torrents): set<string> {
    set h | h in ts && ActiveUpload(ts[h])
  }

  function Target(op: Op): string {
    if op.StartNext? then op.pick else op.hash
  }

  /** A step concerns one torrent, and makes it an upload unasked or where a slot is free. */
  lemma StepTarget(e: Engine, op: Op)
    requires Enabled(e, op)
    ensures var h, now, next := Target(op), Uploads(e.torrents), Uploads(Step(e, op).torrents);
      && now - {h} == next - {h} && Step(e, op).maxUl == e.maxUl
      && (TakesUnasked(e, op) ==> h !in now && h in next)
      && (!TakesUnasked(e, op) && h !in now && h in next ==> !Reached(e.maxUl, |now|))
  {
    assert CountActiveUploads(e.torrents) == |Uploads(e.torrents)|;
    hide CountActiveUploads, CountActiveDownloads, QueuePositionDownload, QueuePositionUpload;
  }

  /**
   The exact condition, for every step: an engine within its upload limit stays
   within it unless every slot is taken and the step takes one unasked.
   */
  lemma StepKeepsUploadLimitIff(e: Engine, op: Op)
    requires Enabled(e, op) && e.maxUl > 0 && CountActiveUploads(e.torrents) <= e.maxUl
    ensures CountActiveUploads(Step(e, op).torrents) <= e.maxUl
      <==> !(CountActiveUploads(e.torrents) == e.maxUl && TakesUnasked(e, op))
  {
    var h, now, next := Target(op), Uploads(e.torrents), Uploads(Step(e, op).torrents);
    StepTarget(e, op);
    hide Step, TakesUnasked, Enabled;
    CountsUploads(e.torrents);
    CountsUploads(Step(e, op).torrents);
    CardWithout(now, h);
    CardWithout(next, h);
    hide Uploads, CountActiveUploads;
  }

  lemma CountsUploads(ts: Torrents)
    ensures CountActiveUploads(ts) == |Uploads(ts)|
  {
    assert (set h | h in ts && ActiveUpload(ts[h])) == Uploads(ts);
  }

  lemma CardWithout<T>(s: set<T>, x: T)
    ensures |s| == |s - {x}| + if x in s then 1 else 0
  {
    if x in s {
      assert s == (s - {x}) + {x};
    } else {
      assert s == s - {x};
    }
  }

  /** Within the upload limit before and after every step. */
  ghost predicate StaysWithin(e: Engine, ops: seq<Op>)
    decreases ops
  {
    CountActiveUploads(e.torrents) <= e.maxUl && (ops == [] || StaysWithin(Step(e, ops[0]), ops[1..]))
  }

  /** No step takes a slot unasked while every slot is taken. */
  ghost predicate NeverOverfills(e: Engine, ops: seq<Op>)
    decreases ops
  {
    ops == [] ||
    (!(CountActiveUploads(e.torrents) == e.maxUl && TakesUnasked(e, ops[0])) &&
     NeverOverfills(Step(e, ops[0]), ops[1..]))
  }

  /** The same over runs: these steps are the only ones that ever break the limit. */
  lemma {:induction false} RunKeepsUploadLimitIff(e: Engine, ops: seq<Op>)
    requires Possible(e, ops) && e.maxUl > 0 && CountActiveUploads(e.torrents) <= e.maxUl
    ensures StaysWithin(e, ops) <==> NeverOverfills(e, ops)
    decreases ops
  {
    if ops != [] {
      var next := Step(e, ops[0]);
      StepTarget(e, ops[0]);
      StepKeepsUploadLimitIff(e, ops[0]);
      if CountActiveUploads(next.torrents) <= e.maxUl {
        RunKeepsUploadLimitIff(next, ops[1..]);
      }
    }
  }

  /** In particular from an empty engine. */
  lemma UploadLimitHoldsIff(maxDl: nat, maxUl: nat, ops: seq<Op>)
    requires maxUl >= 1 && Possible(NewEngine(maxDl, maxUl), ops)
    ensures StaysWithin(NewEngine(maxDl, maxUl), ops) <==> NeverOverfills(NewEngine(maxDl, maxUl), ops)
  {
    RunKeepsUploadLimitIff(NewEngine(maxDl, maxUl), ops);
  }

  /**
   A download that has its last piece stays one until the run loop or the event of
   that piece moves it: it then takes an upload slot, whatever the limits. Its
   download slot is free from the moment it is complete.
   */
  lemma CompletionTakesUploadSlot(e: Engine, h: string, op: Op)
    requires h in e.torrents && e.torrents[h].state.Downloading? && Target(op) == h
    requires (op.PieceCompleted? && (e.torrents[h].complete || op.complete)) || (op.Tick? && e.torrents[h].complete)
    ensures var ts, ts' := e.torrents, Step(e, op).torrents;
      && CountActiveUploads(ts') == CountActiveUploads(ts) + 1
      && CountActiveDownloads(ts') == CountActiveDownloads(ts) - (if ts[h].complete then 0 else 1)
      && (forall other :: other in ts && other != h ==> other in ts' && ts'[other] == ts[other])
  {
    var ts, ts' := e.torrents, Step(e, op).torrents;
    CompletionIs(e, h, op);
    StepTarget(e, op);
    CountsUploads(ts);
    CountsUploads(ts');
    CardWithout(Uploads(ts), h);
    CardWithout(Uploads(ts'), h);
    FreesDownloadSlot(ts, h, ts'[h]);
    hide Step, Uploads, CountActiveUploads, CountActiveDownloads;
  }

  lemma FreesDownloadSlot(ts: Torrents, h: string, t: Torrent)
    requires h in ts && ts[h].state.Downloading? && t.complete
    ensures CountActiveDownloads(ts[h := t]) == CountActiveDownloads(ts) - (if ts[h].complete then 0 else 1)
  {
    var ts' := ts[h := t];
    var before, after := set k | k in ts && ActiveDownload(ts[k]), set k | k in ts' && ActiveDownload(ts'[k]);
    assert after == before - {h};
    CardWithout(before, h);
  }

  lemma CompletionIs(e: Engine, h: string, op: Op)
    requires h in e.torrents && e.torrents[h].state.Downloading? && Target(op) == h
    requires (op.PieceCompleted? && (e.torrents[h].complete || op.complete)) || (op.Tick? && e.torrents[h].complete)
    ensures var ts' := Step(e, op).torrents;
      && h in ts' && ts' == e.torrents[h := ts'[h]]
      && ts'[h].complete && (ts'[h].state.Completed? || ts'[h].state.Seeding?)
  {
  }

  // ------------------------------------------------- runs that break the limit

  /** `states` is what the engine goes through, one step at a time. */
  ghost predicate Trace(states: seq<Engine>, ops: seq<Op>) {
    |states| == |ops| + 1 &&
    forall i :: 0 <= i < |ops| ==> Enabled(states[i], ops[i]) && states[i + 1] == Step(states[i], ops[i])
  }

  lemma {:induction false} TraceRuns(states: seq<Engine>, ops: seq<Op>)
    requires Trace(states, ops)
    ensures Possible(states[0], ops) && Run(states[0], ops) == states[|ops|]
    decreases ops
  {
    if ops != [] {
      var rest := states[1..];
      forall i | 0 <= i < |ops| - 1
        ensures Enabled(rest[i], ops[1..][i]) && rest[i + 1] == Step(rest[i], ops[1..][i])
      {
        assert rest[i] == states[i + 1] && rest[i + 1] == states[i + 2] && ops[1..][i] == ops[i + 1];
      }
      TraceRuns(rest, ops[1..]);
    }
  }

  /** An engine with limits of one and these torrents. */
  function One(a: Torrent): Engine {
    Engine(map["a" := a], 1, 1, 1)
  }

  function Two(a: Torrent, b: Torrent): Engine {
    Engine(map["a" := a, "b" := b], 1, 1, 2)
  }

  const SEED := Torrent(Completed, true, true, 0)

  lemma BothUpload(b: Torrent)
    requires ActiveUpload(b)
    ensures CountActiveUploads(Two(SEED, b).torrents) == 2
    ensures CountActiveUploads(Two(b, SEED.(addedAt := 1)).torrents) == 2
  {
    var ts, us := Two(SEED, b).torrents, Two(b, SEED.(addedAt := 1)).torrents;
    assert (set h | h in ts && ActiveUpload(ts[h])) == {"a", "b"};
    assert (set h | h in us && ActiveUpload(us[h])) == {"a", "b"};
  }

  /** A step that changes the torrent it concerns, among one or two of them. */
  lemma ChangesOne(a: Torrent, b: Torrent, op: Op)
    requires !op.Add? && !op.StartNext? && !op.Remove?
    ensures op.hash == "a" ==> Step(One(a), op) == One(Changed(One(a), a, op))
    ensures op.hash == "a" ==> Step(Two(a, b), op) == Two(Changed(Two(a, b), a, op), b)
    ensures op.hash == "b" ==> Step(Two(a, b), op) == Two(a, Changed(Two(a, b), b, op))
  {
    hide Changed;
    assert map["a" := a, "b" := b]["a" := Changed(Two(a, b), a, op)]
        == map["a" := Changed(Two(a, b), a, op), "b" := b];
  }

  lemma AddsOne(a: Torrent)
    ensures Step(NewEngine(1, 1), Add("a", false)) == One(Torrent(Checking, false, false, 0))
    ensures Step(One(a), Add("b", false)) == Two(a, Torrent(Checking, false, false, 1))
  {
  }

  /** Nothing is ahead of a torrent alone among complete ones, or alone among incomplete ones. */
  lemma NoneAhead(a: Torrent, b: Torrent)
    requires a.complete != b.complete && a.addedAt == 0 && b.addedAt == 1
    ensures QueuePositionUpload(One(a).torrents, 0) == 0
    ensures QueuePositionUpload(Two(a, b).torrents, 1) == 0 || a.complete
    ensures QueuePositionDownload(Two(a, b).torrents, 1) == 0 || b.complete
  {
    var ts := Two(a, b).torrents;
    assert (set h | h in One(a).torrents && AheadForUpload(One(a).torrents[h], 0)) == {};
    if !a.complete {
      assert (set h | h in ts && AheadForUpload(ts[h], 1)) == {};
    } else {
      assert (set h | h in ts && AheadForDownload(ts[h], 1)) == {};
    }
  }

  /** The seed's own steps, and those of the download beside it. */
  lemma SeedThenDownload()
    ensures var start, checked := Torrent(Checking, false, false, 0), Torrent(Checking, true, true, 0);
      && Step(One(start), Progress("a", true, true)) == One(checked)
      && Step(One(checked), FinishVerification("a")) == One(SEED)
    ensures Step(Two(SEED, Torrent(Checking, false, false, 1)), FinishVerification("b"))
         == Two(SEED, Torrent(Downloading, false, true, 1))
  {
    var start, checked := Torrent(Checking, false, false, 0), Torrent(Checking, true, true, 0);
    var waiting := Torrent(Checking, false, false, 1);
    NoneAhead(checked, waiting);
    NoneAhead(SEED, waiting);
    ChangesOne(start, waiting, Progress("a", true, true));
    ChangesOne(checked, waiting, FinishVerification("a"));
    ChangesOne(SEED, waiting, FinishVerification("b"));
    hide QueuePositionDownload, QueuePositionUpload, Step;
  }

  lemma DownloadCompletes()
    ensures var now, done := Torrent(Downloading, false, true, 1), Torrent(Downloading, true, true, 1);
      && Step(Two(SEED, now), Progress("b", true, true)) == Two(SEED, done)
      && Step(Two(SEED, done), PieceCompleted("b", true)) == Two(SEED, SEED.(addedAt := 1))
  {
    var now, done := Torrent(Downloading, false, true, 1), Torrent(Downloading, true, true, 1);
    ChangesOne(SEED, now, Progress("b", true, true));
    ChangesOne(SEED, done, PieceCompleted("b", true));
    hide Step;
  }

  lemma {:induction false} RunsJoin(e: Engine, first: seq<Op>, second: seq<Op>)
    requires Possible(e, first) && Possible(Run(e, first), second)
    ensures Possible(e, first + second) && Run(e, first + second) == Run(Run(e, first), second)
    decreases first
  {
    if first == [] {
      assert first + second == second;
    } else {
      assert (first + second)[1..] == first[1..] + second;
      RunsJoin(Step(e, first[0]), first[1..], second);
    }
  }

  /** A torrent found complete by its check seeds. */
  lemma SeedRuns()
    ensures var ops := [Add("a", false), Progress("a", true, true), FinishVerification("a")];
      Possible(NewEngine(1, 1), ops) && Run(NewEngine(1, 1), ops) == One(SEED)
  {
    AddsOne(SEED);
    SeedThenDownload();
    hide Step, Possible, Run, Oldest;
    TraceRuns([NewEngine(1, 1), One(Torrent(Checking, false, false, 0)), One(Torrent(Checking, true, true, 0)),
               One(SEED)],
              [Add("a", false), Progress("a", true, true), FinishVerification("a")]);
  }

  /** Under limits of one, a download that completes beside a torrent that seeds. */
  lemma UploadLimitIsExceeded() returns (ops: seq<Op>)
    ensures Possible(NewEngine(1, 1), ops) && CountActiveUploads(Run(NewEngine(1, 1), ops).torrents) == 2
  {
    var first := [Add("a", false), Progress("a", true, true), FinishVerification("a")];
    var second := [Add("b", false), FinishVerification("b"), Progress("b", true, true), PieceCompleted("b", true)];
    ops := first + second;
    SeedRuns();
    AddsOne(SEED);
    SeedThenDownload();
    DownloadCompletes();
    hide Step, Possible, Run, CountActiveUploads, Oldest;
    TraceRuns([One(SEED), Two(SEED, Torrent(Checking, false, false, 1)),
               Two(SEED, Torrent(Downloading, false, true, 1)), Two(SEED, Torrent(Downloading, true, true, 1)),
               Two(SEED, SEED.(addedAt := 1))], second);
    RunsJoin(NewEngine(1, 1), first, second);
    BothUpload(SEED.(addedAt := 1));
  }

  /** The limit breaks without any download, when a torrent is found complete during its check. */
  lemma UploadLimitIsExceededByCheck() returns (ops: seq<Op>)
    ensures Possible(NewEngine(1, 1), ops) && CountActiveUploads(Run(NewEngine(1, 1), ops).torrents) == 2
    ensures forall op :: op in ops ==> !op.PieceCompleted? && !op.Tick?
  {
    ops := [Add("a", false), Add("b", false), Progress("b", true, true), FinishVerification("b"),
            Progress("a", true, true)];
    var first, second := Torrent(Checking, false, false, 0), Torrent(Checking, false, false, 1);
    var whole := Torrent(Checking, true, true, 1);
    var states := [NewEngine(1, 1), One(first), Two(first, second), Two(first, whole),
                   Two(first, SEED.(addedAt := 1)), Two(Torrent(Checking, true, true, 0), SEED.(addedAt := 1))];
    NoneAhead(first, whole);
    AddsOne(first);
    ChangesOne(first, second, ops[2]);
    ChangesOne(first, whole, ops[3]);
    ChangesOne(first, SEED.(addedAt := 1), ops[4]);
    hide QueuePositionDownload, QueuePositionUpload, Step, Possible, Run, CountActiveUploads, Oldest;
    TraceRuns(states, ops);
    BothUpload(Torrent(Checking, true, true, 0));
  }
}
