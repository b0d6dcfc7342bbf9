/** The torrent table of the engine and the operations that move torrents through the queue. */
module TorrentQueue {
  import opened Prelude
  import opened QueuePolicy
  import opened DownloadLimit

  datatype EngineError = NotFound | Duplicate | UnsupportedV2Only | DiskFailed

  class TorrentQueue {
    var torrents: Torrents
    var pendingMagnets: set<string>  // magnets whose metadata is still being fetched
    const maxDl: nat
    const maxUl: nat
    var clock: nat

    function View(): Engine
      reads this
    {
      Engine(torrents, maxDl, maxUl, clock)
    }

    ghost predicate Valid()
      reads this
    {
      maxDl >= 1 ==> QueueInv(View())
    }

    constructor (maxDl: nat, maxUl: nat)
      ensures View() == NewEngine(maxDl, maxUl) && Valid()
    {
      torrents, pendingMagnets, clock := map[], {}, 0;
      this.maxDl, this.maxUl := maxDl, maxUl;
    }

    /** `laidOut` says whether the torrent's storage could be built and preallocated. */
    method AddTorrent(hash: string, v2Only: bool, laidOut: bool, addPaused: bool) returns (r: Result<(), EngineError>)
      requires Valid()
      modifies this`torrents, this`clock
      ensures Valid()
      ensures r == if hash in old(torrents) then Err(Duplicate) else if v2Only then Err(UnsupportedV2Only)
                   else if !laidOut then Err(DiskFailed) else Ok(())
      ensures View() == if r.Ok? then Step(old(View()), Op.Add(hash, addPaused)) else old(View())
    {
      Kept(Op.Add(hash, addPaused));
      if hash in torrents {
        return Err(Duplicate);
      }
      if v2Only {
        return Err(UnsupportedV2Only);
      }
      if !laidOut {
        return Err(DiskFailed);
      }
      var managed := Torrent(Checking, false, false, clock);
      if addPaused {
        managed := managed.(state := Paused);
      }
      torrents, clock := torrents[hash := managed], clock + 1;
      r := Ok(());
    }

    /** The invariant after a step, whatever the method does to reach it. */
    lemma Kept(op: Op)
      requires Valid() && Enabled(View(), op)
      ensures maxDl >= 1 ==> QueueInv(Step(View(), op))
    {
      if maxDl >= 1 {
        StepKeepsInv(View(), op);
      }
    }

    method SetState(hash: string, state: TorrentState)
      requires hash in torrents
      modifies this`torrents
      ensures torrents == old(torrents)[hash := old(torrents)[hash].(state := state)]
    {
      torrents := torrents[hash := torrents[hash].(state := state)];
    }

    /** Sends a torrent that leaves its first check to the queue or lets it run. */
    method Admit(hash: string)
      requires hash in torrents
      modifies this`torrents
      ensures torrents == old(torrents)[hash := old(torrents)[hash].(state := old(Admitted(View(), torrents[hash])))]
    {
      var t := torrents[hash];
      var position, limit;
      if t.complete {
        position, limit := QueuePositionUpload(torrents, t.addedAt), maxUl;
      } else {
        position, limit := QueuePositionDownload(torrents, t.addedAt), maxDl;
      }
      if limit > 0 && position >= limit {
        SetState(hash, Queued);
      } else if t.complete {
        SetState(hash, Completed);
      } else {
        SetState(hash, Downloading);
      }
    }

    /** Pieces found on disk or the end of a check that could not read it: no transition. */
    method NoteProgress(hash: string, complete: bool, verified: bool)
      requires Valid()
      modifies this`torrents
      ensures Valid() && View() == Step(old(View()), Op.Progress(hash, complete, verified))
    {
      hide QueueInv;
      Kept(Op.Progress(hash, complete, verified));
      if hash in torrents {
        var t := torrents[hash];
        torrents := torrents[hash := t.(complete := t.complete || complete, verified := t.verified || verified)];
      }
    }

    /** The end of the verification of what is already on disk. */
    method FinishVerification(hash: string)
      requires Valid()
      modifies this`torrents
      ensures Valid() && View() == Step(old(View()), Op.FinishVerification(hash))
    {
      hide QueuePositionDownload, QueuePositionUpload, CountActiveDownloads, CountActiveUploads, QueueInv;
      Kept(Op.FinishVerification(hash));
      if hash in torrents {
        ghost var before := View();
        var checking := torrents[hash].state == Checking;
        torrents := torrents[hash := torrents[hash].(verified := true)];
        VerifiedIsNotCounted(before, hash);
        if checking {
          Admit(hash);
        }
        assert torrents == before.torrents[hash := Changed(before, before.torrents[hash], Op.FinishVerification(hash))];
      }
    }

    /** The state transition of `start_torrent`; connecting is not modelled. */
    method StartTorrent(hash: string)
      requires Valid()
      modifies this`torrents
      ensures Valid() && View() == Step(old(View()), Op.Start(hash))
    {
      hide QueuePositionDownload, QueuePositionUpload, CountActiveDownloads, CountActiveUploads, QueueInv;
      Kept(Op.Start(hash));
      if hash in torrents && torrents[hash].state == Checking && torrents[hash].verified {
        Admit(hash);
      } else if hash in torrents {
        assert torrents == torrents[hash := torrents[hash]];
      }
    }

    method PieceCompleted(hash: string, complete: bool)
      requires Valid()
      modifies this`torrents
      ensures Valid() && View() == Step(old(View()), Op.PieceCompleted(hash, complete))
    {
      hide QueueInv;
      Kept(Op.PieceCompleted(hash, complete));
      ghost var before := View();
      if hash in torrents {
        torrents := torrents[hash := torrents[hash].(complete := torrents[hash].complete || complete)];
        if torrents[hash].complete && torrents[hash].state == Downloading {
          SetState(hash, Completed);
        }
        ghost var op := Op.PieceCompleted(hash, complete);
        assert torrents == before.torrents[hash := Changed(before, before.torrents[hash], op)];
      }
    }

    /** The transitions of one pass of a torrent's run loop. */
    method Tick(hash: string, interested: bool, noSeed: bool)
      requires Valid()
      modifies this`torrents
      ensures Valid() && View() == Step(old(View()), Op.Tick(hash, interested, noSeed))
    {
      hide QueueInv;
      Kept(Op.Tick(hash, interested, noSeed));
      ghost var before := View();
      if hash in torrents {
        if torrents[hash].complete && torrents[hash].state == Downloading {
          SetState(hash, Completed);
        }
        if torrents[hash].complete {
          if torrents[hash].state == Seeding && !interested {
            SetState(hash, Completed);
          } else if torrents[hash].state == Completed && interested && !noSeed {
            SetState(hash, Seeding);
          }
        }
        ghost var op := Op.Tick(hash, interested, noSeed);
        assert torrents == before.torrents[hash := Changed(before, before.torrents[hash], op)];
      }
    }

    method BeginMove(hash: string) returns (r: Result<(), EngineError>)
      requires Valid()
      modifies this`torrents
      ensures Valid() && View() == Step(old(View()), Op.BeginMove(hash))
      ensures r == if hash in old(torrents) then Ok(()) else Err(NotFound)
    {
      hide QueueInv;
      Kept(Op.BeginMove(hash));
      if hash !in torrents {
        return Err(NotFound);
      }
      SetState(hash, Moving);
      r := Ok(());
    }

    /** Leaves the state alone if the torrent was paused or removed meanwhile. */
    method EndMove(hash: string)
      requires Valid()
      modifies this`torrents
      ensures Valid() && View() == Step(old(View()), Op.EndMove(hash))
    {
      hide QueueInv;
      Kept(Op.EndMove(hash));
      if hash in torrents && torrents[hash].state == Moving {
        SetState(hash, Completed);
      } else if hash in torrents {
        assert torrents == torrents[hash := torrents[hash]];
      }
    }

    /** Pauses a torrent and hands its slot on. `started` is the torrent that took it. */
    method PauseTorrent(hash: string) returns (r: Result<Option<string>, EngineError>)
      requires Valid()
      modifies this`torrents
      ensures Valid()
      ensures hash !in old(torrents) ==> r == Err(NotFound) && View() == old(View())
      ensures hash in old(torrents) ==> r.Ok? && Handed(Step(old(View()), Op.Pause(hash)), r.value, View())
    {
      hide QueueInv;
      if hash !in torrents {
        return Err(NotFound);
      }
      Kept(Op.Pause(hash));
      SetState(hash, Paused);
      var started := StartNextQueued();
      r := Ok(started);
    }

    /**
     A magnet still fetching its metadata is only forgotten; a torrent's slot is handed
     on, unless its files were to be deleted and could not be (`deletionFails`).
     */
    method RemoveTorrent(hash: string, deletionFails: bool) returns (r: Result<Option<string>, EngineError>)
      requires Valid()
      modifies this`torrents, this`pendingMagnets
      ensures Valid() && pendingMagnets == old(pendingMagnets) - {hash}
      ensures hash in old(pendingMagnets) ==> r == Ok(None) && View() == old(View())
      ensures hash !in old(pendingMagnets) && hash !in old(torrents) ==> r == Err(NotFound) && View() == old(View())
      ensures hash !in old(pendingMagnets) && hash in old(torrents) ==>
        var removed := Step(old(View()), Op.Remove(hash));
        if deletionFails then r == Err(DiskFailed) && View() == removed
        else r.Ok? && Handed(removed, r.value, View())
    {
      hide QueueInv;
      if hash in pendingMagnets {
        pendingMagnets := pendingMagnets - {hash};
        return Ok(None);
      }
      if hash !in torrents {
        return Err(NotFound);
      }
      Kept(Op.Remove(hash));
      torrents := torrents - {hash};
      if deletionFails {
        return Err(DiskFailed);
      }
      var started := StartNextQueued();
      r := Ok(started);
    }

    method ResumeTorrent(hash: string) returns (r: Result<(), EngineError>)
      requires Valid()
      modifies this`torrents
      ensures Valid() && View() == Step(old(View()), Op.Resume(hash))
      ensures r == if hash in old(torrents) then Ok(()) else Err(NotFound)
    {
      hide QueueInv, CountActiveDownloads, CountActiveUploads;
      if hash !in torrents {
        return Err(NotFound);
      }
      Kept(Op.Resume(hash));
      var complete := torrents[hash].complete;
      var activeDl, activeUl := CountActiveDownloads(torrents), CountActiveUploads(torrents);
      var shouldQueue := if complete then maxUl > 0 && activeUl >= maxUl else maxDl > 0 && activeDl >= maxDl;
      if shouldQueue {
        SetState(hash, Queued);
        return Ok(());
      }
      if complete {
        SetState(hash, Completed);
      } else {
        SetState(hash, Downloading);
      }
      r := Ok(());
    }

    /** Lets the oldest queued torrent run whose kind has a free slot. */
    method StartNextQueued() returns (started: Option<string>)
      requires Valid()
      modifies this`torrents
      ensures Valid() && Handed(old(View()), started, View())
    {
      hide QueueInv, CountActiveDownloads, CountActiveUploads;
      started := None;
      if maxDl == 0 && maxUl == 0 {
        return;
      }
      var activeDl, activeUl := CountActiveDownloads(torrents), CountActiveUploads(torrents);
      var left := torrents.Keys;
      while left != {}
        invariant left <= torrents.Keys && torrents == old(torrents)
        invariant started.Some? ==> Fits(View(), started.value)
        invariant forall h :: h !in left && Fits(View(), h) ==>
          started.Some? && torrents[started.value].addedAt <= torrents[h].addedAt
      {
        var h :| h in left;
        left := left - {h};
        var t := torrents[h];
        var slotFree := if t.complete then maxUl == 0 || activeUl < maxUl else maxDl == 0 || activeDl < maxDl;
        if t.state == Queued && slotFree {
          if started.None? || t.addedAt < torrents[started.value].addedAt {
            started := Some(h);
          }
        }
      }
      if started.Some? {
        Kept(Op.StartNext(started.value));
        if torrents[started.value].complete {
          SetState(started.value, Completed);
        } else {
          SetState(started.value, Downloading);
        }
      }
    }
  }

  /** Marking a torrent verified changes no count. */
  lemma VerifiedIsNotCounted(e: Engine, h: string)
    requires h in e.torrents
    ensures var t := e.torrents[h].(verified := true); Admitted(With(e, h, t), t) == Admitted(e, e.torrents[h])
  {
    var t := e.torrents[h].(verified := true);
    var ts, ts' := e.torrents, e.torrents[h := t];
    var at := t.addedAt;
    assert (set k | k in ts' && AheadForUpload(ts'[k], at)) == (set k | k in ts && AheadForUpload(ts[k], at));
    assert (set k | k in ts' && AheadForDownload(ts'[k], at)) == (set k | k in ts && AheadForDownload(ts[k], at));
  }
}
