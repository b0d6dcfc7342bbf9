/**
 The download limit of the queue, over every run: the two admission rules keep it
 together, by an invariant stronger than the limit.
 */
module DownloadLimit {
  import opened QueuePolicy

  function CountDownloading(ts: Torrents): nat {
    |set h | h in ts && Downloads(ts[h])|
  }

  /** Incomplete torrents downloading now, or in their first check and added before `at`. */
  function Load(ts: Torrents, at: nat): set<string> {
    set h | h in ts && !ts[h].complete && (ts[h].state.Downloading? || (ts[h].state.Checking? && ts[h].addedAt < at))
  }

  /**
   The strengthened invariant: the downloading torrents, together with those still
   being checked that were added before the newest of them, keep to the limit.
   */
  ghost predicate LoadOk(e: Engine) {
    forall h :: h in e.torrents && Downloads(e.torrents[h]) ==> |Load(e.torrents, e.torrents[h].addedAt)| <= e.maxDl
  }

  ghost predicate QueueInv(e: Engine) {
    ClockOk(e) && LoadOk(e)
  }

  lemma SubsetCard<T>(a: set<T>, b: set<T>)
    requires a <= b
    ensures |a| <= |b|
  {
    assert b == a + (b - a) && |b| == |a| + |b - a|;
  }

  /** The invariant bounds the downloads, whichever the newest is. */
  lemma InvBoundsDownloads(e: Engine)
    requires LoadOk(e)
    ensures CountDownloading(e.torrents) <= e.maxDl
  {
    var d := set h | h in e.torrents && Downloads(e.torrents[h]);
    if d != {} {
      var h :| h in d;
      SubsetCard(d, Load(e.torrents, e.torrents[h].addedAt));
    }
  }

  /** No torrent starts to download, and none becomes a check that is older than one. */
  ghost predicate NoneStarts(e: Engine, e': Engine) {
    && e'.maxDl == e.maxDl
    && forall h :: h in e'.torrents && !e'.torrents[h].complete ==>
      var t' := e'.torrents[h];
      && (t'.state.Downloading? ==> h in e.torrents && Downloads(e.torrents[h]) && t'.addedAt == e.torrents[h].addedAt)
      && (t'.state.Checking? && t'.addedAt < e.clock ==>
          && h in e.torrents && !e.torrents[h].complete && e.torrents[h].state.Checking?
          && t'.addedAt == e.torrents[h].addedAt)
  }

  lemma NoneStartsKeeps(e: Engine, e': Engine)
    requires QueueInv(e) && NoneStarts(e, e')
    ensures LoadOk(e')
  {
    forall h | h in e'.torrents && Downloads(e'.torrents[h])
      ensures |Load(e'.torrents, e'.torrents[h].addedAt)| <= e'.maxDl
    {
      var at := e.torrents[h].addedAt;
      SubsetCard(Load(e'.torrents, at), Load(e.torrents, at));
    }
  }

  /** A torrent may start when fewer than the limit are active, however old it is. */
  lemma FreeSlotKeeps(e: Engine, h: string, t: Torrent)
    requires h in e.torrents && CountActiveDownloads(e.torrents) < e.maxDl
    ensures LoadOk(With(e, h, t))
  {
    var e' := With(e, h, t);
    var active := set k | k in e.torrents && ActiveDownload(e.torrents[k]);
    forall k | k in e'.torrents && Downloads(e'.torrents[k])
      ensures |Load(e'.torrents, e'.torrents[k].addedAt)| <= e'.maxDl
    {
      var load := Load(e'.torrents, e'.torrents[k].addedAt);
      SubsetCard(load, active + {h});
      assert |active + {h}| <= |active| + 1;
    }
  }

  /** A torrent may leave its first check when fewer than the limit are ahead of it. */
  lemma AheadSlotKeeps(e: Engine, h: string, t: Torrent)
    requires QueueInv(e) && h in e.torrents && e.torrents[h].state.Checking? && !e.torrents[h].complete
    requires QueuePositionDownload(e.torrents, e.torrents[h].addedAt) < e.maxDl
    requires t.addedAt == e.torrents[h].addedAt && Downloads(t)
    ensures LoadOk(With(e, h, t))
  {
    var e' := With(e, h, t);
    forall k | k in e'.torrents && Downloads(e'.torrents[k])
      ensures |Load(e'.torrents, e'.torrents[k].addedAt)| <= e'.maxDl
    {
      var at := e'.torrents[k].addedAt;
      if k != h && at > t.addedAt {
        // `h` was already counted as an older check.
        SubsetCard(Load(e'.torrents, at), Load(e.torrents, at));
      } else if exists d :: d in e.torrents && Downloads(e.torrents[d]) && e.torrents[d].addedAt > t.addedAt {
        var d :| d in e.torrents && Downloads(e.torrents[d]) && e.torrents[d].addedAt > t.addedAt;
        SubsetCard(Load(e'.torrents, at), Load(e.torrents, e.torrents[d].addedAt));
      } else {
        // `h` is now the newest download: all the others are ahead of it.
        var ahead := set j | j in e.torrents && AheadForDownload(e.torrents[j], t.addedAt);
        SubsetCard(Load(e'.torrents, at), ahead + {h});
        assert |ahead + {h}| <= |ahead| + 1;
      }
    }
  }

  /** Every step keeps the invariant. */
  lemma StepKeepsInv(e: Engine, op: Op)
    requires QueueInv(e) && e.maxDl >= 1 && Enabled(e, op)
    ensures QueueInv(Step(e, op)) && Step(e, op).maxDl == e.maxDl
  {
    hide LoadOk, Load, CountActiveDownloads, CountActiveUploads, QueuePositionDownload, QueuePositionUpload, ClockOk;
    var e' := Step(e, op);
    StepKeepsClock(e, op);
    if op.StartNext? {
      if e.torrents[op.pick].complete {
        NoneStartsKeeps(e, e');
      } else {
        FreeSlotKeeps(e, op.pick, e'.torrents[op.pick]);
      }
    } else if op.Resume? && op.hash in e.torrents && e'.torrents[op.hash].state.Downloading? {
      FreeSlotKeeps(e, op.hash, e'.torrents[op.hash]);
    } else if (op.FinishVerification? || op.Start?) && op.hash in e.torrents && e.torrents[op.hash].state.Checking?
              && e'.torrents[op.hash].state.Downloading? {
      AheadSlotKeeps(e, op.hash, e'.torrents[op.hash]);
    } else {
      NoneStartsKeeps(e, e');
    }
  }

  /** With a download limit of at least 1, it holds after every run. */
  lemma {:induction false} RunKeepsDownloadLimit(e: Engine, ops: seq<Op>)
    requires QueueInv(e) && e.maxDl >= 1 && Possible(e, ops)
    ensures QueueInv(Run(e, ops)) && CountDownloading(Run(e, ops).torrents) <= e.maxDl
    decreases ops
  {
    if ops == [] {
      InvBoundsDownloads(e);
    } else {
      hide QueueInv, CountDownloading, Step, Enabled;
      StepKeepsInv(e, ops[0]);
      RunKeepsDownloadLimit(Step(e, ops[0]), ops[1..]);
    }
  }

  /** In particular from an empty engine, at every moment of every run. */
  lemma DownloadLimitHolds(maxDl: nat, maxUl: nat, ops: seq<Op>)
    requires maxDl >= 1 && Possible(NewEngine(maxDl, maxUl), ops)
    ensures CountDownloading(Run(NewEngine(maxDl, maxUl), ops).torrents) <= maxDl
  {
    RunKeepsDownloadLimit(NewEngine(maxDl, maxUl), ops);
  }

  /** The limit alone is not inductive: an older torrent still being checked may be let in on top. */
  lemma LimitAloneIsNotInductive() returns (e: Engine, op: Op)
    ensures e.maxDl == 1 && ClockOk(e) && Enabled(e, op)
    ensures CountDownloading(e.torrents) <= 1 && CountDownloading(Step(e, op).torrents) == 2
  {
    var older, newer := Torrent(Checking, false, false, 0), Torrent(Downloading, false, true, 1);
    var ts: Torrents := map["a" := older, "b" := newer];
    e, op := Engine(ts, 1, 0, 2), FinishVerification("a");
    assert (set h | h in ts && AheadForDownload(ts[h], 0)) == {};
    var ts' := Step(e, op).torrents;
    assert (set h | h in ts && Downloads(ts[h])) == {"b"};
    assert (set h | h in ts' && Downloads(ts'[h])) == {"a", "b"};
  }
}
