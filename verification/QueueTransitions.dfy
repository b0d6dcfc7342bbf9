/**
 What the steps that start torrents come to, with the torrents they count written out:
 a torrent waits exactly when its limit is on and reached.
 */
module QueueTransitions {
  import opened Prelude
  import opened QueuePolicy

  /** The incomplete torrents that download or are being checked. */
  ghost function Downloading(ts: Torrents): set<string> {
    set k | k in ts && !ts[k].complete && ts[k].state in {TorrentState.Downloading, Checking}
  }

  /** The complete torrents that seed, wait for a peer to seed to, or are being checked. */
  ghost function Uploading(ts: Torrents): set<string> {
    set k | k in ts && ts[k].complete && ts[k].state in {Seeding, Completed, Checking}
  }

  /** The incomplete torrents added before `at` that download, are being checked or wait. */
  ghost function DownloadsAhead(ts: Torrents, at: nat): set<string> {
    set k | k in ts && !ts[k].complete && ts[k].addedAt < at
      && ts[k].state in {TorrentState.Downloading, Checking, Queued}
  }

  /** The complete torrents added before `at` that seed, are done, being checked or wait. */
  ghost function UploadsAhead(ts: Torrents, at: nat): set<string> {
    set k | k in ts && ts[k].complete && ts[k].addedAt < at && ts[k].state in {Seeding, Completed, Checking, Queued}
  }

  lemma CountsAre(ts: Torrents, at: nat)
    ensures CountActiveDownloads(ts) == |Downloading(ts)| && CountActiveUploads(ts) == |Uploading(ts)|
    ensures QueuePositionDownload(ts, at) == |DownloadsAhead(ts, at)|
    ensures QueuePositionUpload(ts, at) == |UploadsAhead(ts, at)|
  {
    assert (set k | k in ts && ActiveDownload(ts[k])) == Downloading(ts);
    assert (set k | k in ts && ActiveUpload(ts[k])) == Uploading(ts);
    assert (set k | k in ts && AheadForDownload(ts[k], at)) == DownloadsAhead(ts, at);
    assert (set k | k in ts && AheadForUpload(ts[k], at)) == UploadsAhead(ts, at);
  }

  /** `after` is `e` with one torrent in another state. */
  ghost predicate Moves(e: Engine, h: string, state: TorrentState, after: Engine)
    requires h in e.torrents
  {
    after == e.(torrents := e.torrents[h := e.torrents[h].(state := state)])
  }

  /**
   A resumed torrent waits if and only if the limit of its kind is on and at least as
   many torrents of its kind are active; otherwise it starts. No other torrent changes.
   */
  lemma ResumeStartsIff(e: Engine, h: string)
    requires h in e.torrents
    ensures var active := |if e.torrents[h].complete then Uploading(e.torrents) else Downloading(e.torrents)|;
      var limit := if e.torrents[h].complete then e.maxUl else e.maxDl;
      Moves(e, h, if limit > 0 && active >= limit then Queued
                  else if e.torrents[h].complete then Completed else TorrentState.Downloading, Step(e, Resume(h)))
  {
    CountsAre(e.torrents, 0);
    hide CountActiveDownloads, CountActiveUploads;
  }

  /** A torrent leaving its first check, by the torrents of its kind that were added before it. */
  lemma AdmissionStartsIff(e: Engine, h: string, op: Op)
    requires h in e.torrents && e.torrents[h].state == Checking
    requires op == FinishVerification(h) || (op == Start(h) && e.torrents[h].verified)
    ensures var t := e.torrents[h];
      var ahead := |if t.complete then UploadsAhead(e.torrents, t.addedAt) else DownloadsAhead(e.torrents, t.addedAt)|;
      var limit := if t.complete then e.maxUl else e.maxDl;
      var state := if limit > 0 && ahead >= limit then Queued
                   else if t.complete then Completed else TorrentState.Downloading;
      Step(e, op) == e.(torrents := e.torrents[h := t.(verified := true, state := state)])
  {
    CountsAre(e.torrents, e.torrents[h].addedAt);
    hide QueuePositionDownload, QueuePositionUpload;
  }

  /** A torrent that is not leaving its check keeps its state. */
  lemma OnlyChecksAreAdmitted(e: Engine, h: string)
    requires h in e.torrents && e.torrents[h].state != Checking
    ensures Step(e, FinishVerification(h)) == e.(torrents := e.torrents[h := e.torrents[h].(verified := true)])
    ensures Step(e, Start(h)) == e
  {
    assert e.torrents[h := e.torrents[h]] == e.torrents;
  }

  /** One that is still to be verified goes on being checked. */
  lemma UnverifiedWaits(e: Engine, h: string)
    requires h in e.torrents && !e.torrents[h].verified
    ensures Step(e, Start(h)) == e
  {
    assert e.torrents[h := e.torrents[h]] == e.torrents;
  }

  /** A queued torrent whose limit is off or has room. */
  ghost predicate HasRoom(e: Engine, h: string) {
    && h in e.torrents && e.torrents[h].state == Queued
    && if e.torrents[h].complete then e.maxUl == 0 || |Uploading(e.torrents)| < e.maxUl
       else e.maxDl == 0 || |Downloading(e.torrents)| < e.maxDl
  }

  /**
   Start-next has exactly the oldest queued torrents with room to choose from, and finds
   one whenever there is one: it hands no slot on only if no torrent can use it, or if
   both limits are off. What it chooses starts.
   */
  lemma StartNextStartsIff(e: Engine, started: Option<string>, after: Engine)
    requires Handed(e, started, after)
    ensures started.Some? <==> (e.maxDl > 0 || e.maxUl > 0) && exists h :: HasRoom(e, h)
    ensures started.None? ==> after == e
    ensures started.Some? ==>
      var h := started.value;
      && HasRoom(e, h) && (forall k :: HasRoom(e, k) ==> e.torrents[h].addedAt <= e.torrents[k].addedAt)
      && Moves(e, h, if e.torrents[h].complete then Completed else TorrentState.Downloading, after)
  {
    CountsAre(e.torrents, 0);
    hide CountActiveDownloads, CountActiveUploads;
    assert forall h :: Fits(e, h) <==> HasRoom(e, h);
  }

  /** The run loop completes a download that has all its pieces and follows the demand of peers. */
  lemma TickFollowsDemand(e: Engine, h: string, interested: bool, noSeed: bool)
    requires h in e.torrents
    ensures var t := e.torrents[h];
      Moves(e, h,
        if t.complete && t.state in {TorrentState.Downloading, Completed} then
          if interested && !noSeed then Seeding else Completed
        else if t.complete && t.state == Seeding then
          if interested then Seeding else Completed
        else t.state,
        Step(e, Tick(h, interested, noSeed)))
  {
  }

  /** The remaining steps, each on the one torrent it names. */
  lemma OtherMoves(e: Engine, h: string, complete: bool, verified: bool)
    requires h in e.torrents
    ensures var t := e.torrents[h];
      && Moves(e, h, Paused, Step(e, Pause(h))) && Moves(e, h, Moving, Step(e, BeginMove(h)))
      && Moves(e, h, if t.state == Moving then Completed else t.state, Step(e, EndMove(h)))
      && Step(e, Remove(h)) == e.(torrents := e.torrents - {h})
      && Step(e, Progress(h, complete, verified)) ==
           e.(torrents := e.torrents[h := t.(complete := t.complete || complete, verified := t.verified || verified)])
      && Step(e, PieceCompleted(h, complete)) == e.(torrents := e.torrents[h := t.(complete := t.complete || complete,
           state := if t.state == TorrentState.Downloading && (t.complete || complete) then Completed else t.state)])
  {
  }

  /** A new torrent is checked first, or paused; it knows nothing of its pieces. */
  lemma AddChecks(e: Engine, h: string, paused: bool)
    requires h !in e.torrents
    ensures Step(e, Add(h, paused)) ==
      e.(torrents := e.torrents[h := Torrent(if paused then Paused else Checking, false, false, e.clock)],
         clock := e.clock + 1)
  {
  }
}
