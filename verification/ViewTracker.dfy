/** Counting views: one per viewer and video in any half hour, with a database row behind each. */
module ViewTracking {
  import opened Basics
  import Redis

  const WINDOW := 1800000

  type VideoId = string

  datatype ViewEvent = ViewEvent(videoId: VideoId, userId: Option<string>, sessionId: string)

  datatype ViewError = InvalidInput | VideoNotFound | StoreFailure

  /** A signed-in viewer is the user; an anonymous one is the session. */
  function Viewer(e: ViewEvent): Option<string> {
    if e.userId.Some? then e.userId
    else if e.sessionId != "" then Some(e.sessionId)
    else None
  }

  /** A signed-in viewer is told by the user alone, an anonymous one by the session; who has neither is nobody. */
  lemma ViewersAreToldApart(e: ViewEvent, e': ViewEvent)
    ensures e.userId.Some? && e'.userId.Some? ==> (Viewer(e) == Viewer(e') <==> e.userId == e'.userId)
    ensures e.userId.None? && e'.userId.None? && e.sessionId != "" ==> (Viewer(e) == Viewer(e') <==> e.sessionId == e'.sessionId)
    ensures Viewer(e).None? <==> e.userId.None? && e.sessionId == ""
  {
  }

  function DedupeKey(video: VideoId, viewer: string): string {
    "video:view_dedupe:" + video + ":" + viewer
  }

  /** Video IDs all print at one length, so keys of different videos or viewers differ. */
  lemma DedupeKeysSeparate(video: VideoId, viewer: string, video': VideoId, viewer': string)
    requires |video| == |video'|
    ensures DedupeKey(video, viewer) == DedupeKey(video', viewer') <==> video == video' && viewer == viewer'
  {
    var key, key' := DedupeKey(video, viewer), DedupeKey(video', viewer');
    var p := |"video:view_dedupe:"|;
    assert key[p..p + |video|] == video && key[p + |video| + 1..] == viewer;
    assert key'[p..p + |video|] == video' && key'[p + |video| + 1..] == viewer';
  }

  // ---- The database side ----

  /** Rows of video_views beside the counter kept on each video. */
  datatype Tables = Tables(views: seq<VideoId>, viewCount: map<VideoId, int>)

  function RowsFor(views: seq<VideoId>, video: VideoId): nat {
    if views == [] then 0
    else RowsFor(views[..|views| - 1], video) + if views[|views| - 1] == video then 1 else 0
  }

  ghost predicate CountersMatch(t: Tables) {
    forall v :: v in t.viewCount ==> t.viewCount[v] == RowsFor(t.views, v)
  }

  function Recorded(t: Tables, video: VideoId): Tables {
    if video in t.viewCount then Tables(t.views + [video], t.viewCount[video := t.viewCount[video] + 1]) else t
  }

  class AnalyticsRepository {
    var tables: Tables

    constructor (videos: set<VideoId>)
      ensures CountersMatch(tables) && tables.viewCount.Keys == videos
    {
      tables := Tables([], map v | v in videos :: 0);
    }

    /** Both statements commit together or not at all, wherever the transaction breaks off. */
    method RecordView(video: VideoId, insertOk: bool, updateOk: bool, commitOk: bool) returns (r: Result<(), ViewError>)
      requires CountersMatch(tables)
      modifies this
      ensures CountersMatch(tables)
      ensures tables == if r.Ok? then Recorded(old(tables), video) else old(tables)
      ensures r.Ok? ==> tables.views == old(tables).views + [video]
      ensures r.Ok? ==> tables.viewCount == old(tables).viewCount[video := old(tables).viewCount[video] + 1]
      ensures r.Ok? <==> video in old(tables).viewCount && insertOk && updateOk && commitOk
      ensures r == Err(VideoNotFound) <==> video !in old(tables).viewCount
      ensures r.Err? ==> r.error == VideoNotFound || r.error == StoreFailure
    {
      if video !in tables.viewCount {
        return Err(VideoNotFound);
      }
      if !insertOk {
        return Err(StoreFailure);
      }
      var views := tables.views + [video];
      if !updateOk {
        return Err(StoreFailure);
      }
      var viewCount := tables.viewCount[video := tables.viewCount[video] + 1];
      if !commitOk {
        return Err(StoreFailure);
      }
      RecordingKeepsCounters(tables, video);
      tables := Tables(views, viewCount);
      r := Ok(());
    }
  }

  lemma RecordingKeepsCounters(t: Tables, video: VideoId)
    requires CountersMatch(t)
    ensures CountersMatch(Recorded(t, video))
  {
    assert (t.views + [video])[..|t.views|] == t.views;
  }

  // ---- One call, undisturbed ----

  class ViewTracker {
    const redis: Redis.Server<string>
    const repo: AnalyticsRepository

    constructor (redis: Redis.Server<string>, repo: AnalyticsRepository)
      ensures this.redis == redis && this.repo == repo
    {
      this.redis, this.repo := redis, repo;
    }

    /**
     A view counts unless the viewer's key is live; a view that could not be stored deletes
     the key, if Redis can be reached by then. An unreachable Redis counts every view.
     */
    method TrackView(event: ViewEvent, insertOk: bool, updateOk: bool, commitOk: bool, delOk: bool, now: int)
      returns (r: Result<bool, ViewError>)
      requires CountersMatch(repo.tables)
      modifies redis`db, repo
      ensures CountersMatch(repo.tables)
      ensures Viewer(event).None? ==> r == Err(InvalidInput) && redis.db == old(redis.db) && repo.tables == old(repo.tables)
      ensures Viewer(event).Some? ==>
        var key := DedupeKey(event.videoId, Viewer(event).value);
        var duplicate := redis.reachable && Redis.Live(old(redis.db), key, now);
        && (duplicate <==> r == Ok(false))
        && (r == Err(VideoNotFound) <==> !duplicate && event.videoId !in old(repo.tables).viewCount)
        && (r == Ok(true) <==> !duplicate && event.videoId in old(repo.tables).viewCount && insertOk && updateOk && commitOk)
        && repo.tables == (if r == Ok(true) then Recorded(old(repo.tables), event.videoId) else old(repo.tables))
        && var claimed := if redis.reachable && !duplicate then Redis.Stored(old(redis.db), key, "1", WINDOW, now) else old(redis.db);
        redis.db == if r.Err? && delOk then claimed - {key} else claimed
    {
      var viewer := Viewer(event);
      if viewer.None? {
        return Err(InvalidInput);
      }
      var key := DedupeKey(event.videoId, viewer.value);
      var claimed := redis.SetNX(key, "1", WINDOW, now);
      if claimed == Some(false) {
        return Ok(false);
      }
      var stored := repo.RecordView(event.videoId, insertOk, updateOk, commitOk);
      if stored.Err? {
        if delOk {
          redis.db := redis.db - {key};
        }
        return Err(stored.error);
      }
      r := Ok(true);
    }
  }

  // ---- Interleaved calls ----

  type CallId = int

  datatype Phase = Claimed | InsertFailed | Abandoned | Counted

  /**
   A call that was let through: the key, the video, and when it asked. Without `keyed` the key
   is not its own: Redis could not be reached. `Abandoned` is a failure that could not give the key back.
   */
  datatype Call = Call(video: VideoId, key: string, claimedAt: int, keyed: bool, phase: Phase)

  datatype State = State(now: int, db: Redis.Db<string>, calls: map<CallId, Call>, tables: Tables)

  datatype Op =
    | Wait(until: int)
    | Claim(id: CallId, video: VideoId, viewer: string)
    | Bypass(id: CallId, video: VideoId, viewer: string)   // SETNX failed, and the view is counted anyway
    | Commit(id: CallId)
    | FailInsert(id: CallId)
    | Release(id: CallId, deleted: bool)                   // whether the DEL came through

  ghost predicate Step(s: State, s': State, op: Op) {
    match op
    case Wait(until) => s' == s.(now := Max(s.now, until))
    case Claim(id, video, viewer) =>
      var key := DedupeKey(video, viewer);
      && id !in s.calls
      && s' == if Redis.Live(s.db, key, s.now) then s
               else s.(db := Redis.Stored(s.db, key, "1", WINDOW, s.now),
                       calls := s.calls[id := Call(video, key, s.now, true, Claimed)])
    case Bypass(id, video, viewer) =>
      && id !in s.calls
      && s' == s.(calls := s.calls[id := Call(video, DedupeKey(video, viewer), s.now, false, Claimed)])
    case Commit(id) =>
      && id in s.calls && s.calls[id].phase == Claimed && s.calls[id].video in s.tables.viewCount
      && s' == s.(calls := s.calls[id := s.calls[id].(phase := Counted)], tables := Recorded(s.tables, s.calls[id].video))
    case FailInsert(id) =>
      && id in s.calls && s.calls[id].phase == Claimed
      && s' == s.(calls := s.calls[id := s.calls[id].(phase := InsertFailed)])
    case Release(id, deleted) =>
      && id in s.calls && s.calls[id].phase == InsertFailed
      && s' == if deleted then s.(db := s.db - {s.calls[id].key}, calls := s.calls - {id})
               else s.(calls := s.calls[id := s.calls[id].(phase := Abandoned)])
  }

  ghost predicate IsRun(ss: seq<State>, ops: seq<Op>) {
    && |ss| == |ops| + 1
    && ss[0].db == map[] && ss[0].calls == map[] && CountersMatch(ss[0].tables)
    && forall i :: 0 <= i < |ops| ==> Step(ss[i], ss[i + 1], ops[i])
  }

  /** A claim younger than the window still holds its key. */
  ghost predicate HoldsKey(s: State, c: Call) {
    && c.claimedAt <= s.now
    && (s.now < c.claimedAt + WINDOW ==> c.key in s.db && s.db[c.key].deadline == Some(c.claimedAt + WINDOW))
  }

  predicate FarApart(c: Call, c': Call) {
    c.claimedAt + WINDOW <= c'.claimedAt || c'.claimedAt + WINDOW <= c.claimedAt
  }

  /** Which calls are looked at: those that won their key, or those let through without one as well. */
  datatype Scope = Keyed | All

  predicate InScope(scope: Scope, c: Call) {
    c.keyed || scope == All
  }

  ghost predicate Spaced(s: State, scope: Scope) {
    && (forall id :: id in s.calls && InScope(scope, s.calls[id]) ==> HoldsKey(s, s.calls[id]))
    && (forall id, id' :: id in s.calls && id' in s.calls && id != id' && s.calls[id].key == s.calls[id'].key ==>
          InScope(scope, s.calls[id]) && InScope(scope, s.calls[id']) ==> FarApart(s.calls[id], s.calls[id']))
  }

  /** The call a key was written by. */
  ghost predicate Owns(s: State, id: CallId, key: string)
    requires key in s.db
  {
    && id in s.calls && s.calls[id].key == key && s.calls[id].keyed
    && s.calls[id].claimedAt <= s.now && s.db[key].deadline == Some(s.calls[id].claimedAt + WINDOW)
  }

  ghost predicate EveryKeyIsOwned(s: State) {
    forall key :: key in s.db ==> exists id :: Owns(s, id, key)
  }

  lemma StepKeepsOwners(s: State, s': State, op: Op)
    requires Step(s, s', op) && EveryKeyIsOwned(s)
    ensures EveryKeyIsOwned(s')
  {
    forall key | key in s'.db ensures exists id :: Owns(s', id, key) {
      if op.Claim? && s' != s && key == DedupeKey(op.video, op.viewer) {
        assert Owns(s', op.id, key);
      } else {
        var id :| Owns(s, id, key);
        assert Owns(s', id, key);
      }
    }
  }

  lemma {:induction false} RunKeepsOwners(ss: seq<State>, ops: seq<Op>, j: nat)
    requires IsRun(ss, ops) && j < |ss|
    ensures EveryKeyIsOwned(ss[j])
  {
    if 0 < j {
      RunKeepsOwners(ss, ops, j - 1);
      StepKeepsOwners(ss[j - 1], ss[j], ops[j - 1]);
    }
  }

  /** A DEL that is lost. */
  predicate LosesDel(op: Op, id: CallId) {
    op == Release(id, false)
  }

  lemma {:induction false} AbandonedByALostDel(ss: seq<State>, ops: seq<Op>, j: nat, id: CallId)
    requires IsRun(ss, ops) && j < |ss|
    requires id in ss[j].calls && ss[j].calls[id].phase == Abandoned
    ensures exists k :: 0 <= k < j && LosesDel(ops[k], id)
  {
    assert Step(ss[j - 1], ss[j], ops[j - 1]);
    if !LosesDel(ops[j - 1], id) {
      AbandonedByALostDel(ss, ops, j - 1, id);
    }
  }

  /**
   A failed insert uses up the window only if its DEL is lost. In every interleaving a viewer is
   refused only beside a call that claimed the key less than a window ago and has not given it back:
   one that is counted, still storing, about to release, or whose release never reached Redis.
   */
  lemma RefusedOnlyBesideAClaim(ss: seq<State>, ops: seq<Op>, j: nat, video: VideoId, viewer: string) returns (id: CallId)
    requires IsRun(ss, ops) && j < |ss|
    requires Redis.Live(ss[j].db, DedupeKey(video, viewer), ss[j].now)
    ensures id in ss[j].calls && ss[j].calls[id].key == DedupeKey(video, viewer) && ss[j].calls[id].keyed
    ensures ss[j].calls[id].claimedAt <= ss[j].now < ss[j].calls[id].claimedAt + WINDOW
    ensures ss[j].calls[id].phase == Abandoned ==> exists k :: 0 <= k < j && LosesDel(ops[k], id)
  {
    RunKeepsOwners(ss, ops, j);
    id :| Owns(ss[j], id, DedupeKey(video, viewer));
    if ss[j].calls[id].phase == Abandoned {
      AbandonedByALostDel(ss, ops, j, id);
    }
  }

  // ---- Exactly when counted views stay apart ----

  /**
   A release that finds the key live though it is not its own: because it comes a window
   or more after its claim, or because it never had one.
   */
  ghost predicate Steals(s: State, op: Op) {
    && op.Release? && op.deleted && op.id in s.calls
    && (s.calls[op.id].keyed ==> s.calls[op.id].claimedAt + WINDOW <= s.now)
    && Redis.Live(s.db, s.calls[op.id].key, s.now)
  }

  lemma ClaimKeepsSpacing(s: State, s': State, op: Op, scope: Scope)
    requires Step(s, s', op) && Spaced(s, scope) && op.Claim? && s' != s
    ensures Spaced(s', scope)
  {
    var key := DedupeKey(op.video, op.viewer);
    forall id | id in s.calls && s.calls[id].key == key && InScope(scope, s.calls[id])
      ensures s.calls[id].claimedAt + WINDOW <= s.now
    {
      assert HoldsKey(s, s.calls[id]);
    }
  }

  /** A call without a key is spaced from the others as long as it stays out of scope. */
  lemma BypassBreaksSpacing(s: State, s': State, op: Op, scope: Scope)
    requires Step(s, s', op) && Spaced(s, scope) && EveryKeyIsOwned(s) && op.Bypass?
    ensures Spaced(s', scope) <==> scope == Keyed
  {
    var key := DedupeKey(op.video, op.viewer);
    if scope == All {
      assert op.id in s'.calls && InScope(scope, s'.calls[op.id]);
      if HoldsKey(s', s'.calls[op.id]) {
        var id :| Owns(s, id, key);
        assert id in s'.calls && !FarApart(s'.calls[id], s'.calls[op.id]);
      }
    } else {
      forall id | id in s'.calls && s'.calls[id].keyed ensures HoldsKey(s', s'.calls[id]) {
        assert HoldsKey(s, s.calls[id]);
      }
    }
  }

  lemma HonestReleaseKeepsSpacing(s: State, s': State, op: Op, scope: Scope)
    requires Step(s, s', op) && Spaced(s, scope) && op.Release? && !Steals(s, op)
    ensures Spaced(s', scope)
  {
    var mine := s.calls[op.id];
    forall id | id in s'.calls && InScope(scope, s'.calls[id]) ensures HoldsKey(s', s'.calls[id]) {
      assert HoldsKey(s, s.calls[id]);
      assert mine.keyed ==> HoldsKey(s, mine);
      assert id != op.id && s.calls[id].key == mine.key && mine.keyed ==> FarApart(s.calls[id], mine);
    }
  }

  lemma OtherStepsKeepSpacing(s: State, s': State, op: Op, scope: Scope)
    requires Step(s, s', op) && Spaced(s, scope)
    requires s' == s || op.Wait? || op.Commit? || op.FailInsert?
    ensures Spaced(s', scope)
  {
    forall id | id in s'.calls && InScope(scope, s'.calls[id]) ensures HoldsKey(s', s'.calls[id]) {
      assert HoldsKey(s, s.calls[id]);
    }
  }

  lemma StealingBreaksSpacing(s: State, s': State, op: Op) returns (id: CallId)
    requires Step(s, s', op) && EveryKeyIsOwned(s) && Steals(s, op)
    ensures id in s'.calls && s'.calls[id].key == s.calls[op.id].key && s'.calls[id].keyed && !HoldsKey(s', s'.calls[id])
  {
    id :| Owns(s, id, s.calls[op.id].key);
  }

  /** From a state in which claims are spaced, every step keeps them so but a stealing release and, in the wider scope, a bypass. */
  lemma StepKeepsSpacingExactlyWhen(s: State, s': State, op: Op, scope: Scope)
    requires Step(s, s', op) && Spaced(s, scope) && EveryKeyIsOwned(s)
    ensures Spaced(s', scope) <==> !Steals(s, op) && !(scope == All && op.Bypass?)
  {
    if Steals(s, op) {
      var id := StealingBreaksSpacing(s, s', op);
    } else if op.Release? {
      HonestReleaseKeepsSpacing(s, s', op, scope);
    } else if op.Claim? && s' != s {
      ClaimKeepsSpacing(s, s', op, scope);
    } else if op.Bypass? {
      BypassBreaksSpacing(s, s', op, scope);
    } else {
      OtherStepsKeepSpacing(s, s', op, scope);
    }
  }

  /** Up to the j-th state no release takes a key that is not its own and, in the wider scope, no call goes without one. */
  ghost predicate Undisturbed(ss: seq<State>, ops: seq<Op>, j: nat, scope: Scope)
    requires j < |ss| == |ops| + 1
  {
    forall k :: 0 <= k < j ==> !Steals(ss[k], ops[k]) && !(scope == All && ops[k].Bypass?)
  }

  /**
   Claims are spaced throughout a run exactly when no release in it takes a key that is not
   its own; counting the calls let through without a key, exactly when there are none of these either.
   */
  lemma {:induction false} SpacedExactlyWhenNoKeyIsStolen(ss: seq<State>, ops: seq<Op>, j: nat, scope: Scope)
    requires IsRun(ss, ops) && j < |ss|
    ensures (forall k :: 0 <= k <= j ==> Spaced(ss[k], scope)) <==> Undisturbed(ss, ops, j, scope)
  {
    if 0 < j {
      SpacedExactlyWhenNoKeyIsStolen(ss, ops, j - 1, scope);
      RunKeepsOwners(ss, ops, j - 1);
      assert (forall k :: 0 <= k <= j ==> Spaced(ss[k], scope)) <==>
        (forall k :: 0 <= k <= j - 1 ==> Spaced(ss[k], scope)) && Spaced(ss[j], scope);
      if Spaced(ss[j - 1], scope) {
        StepKeepsSpacingExactlyWhen(ss[j - 1], ss[j], ops[j - 1], scope);
      }
    }
  }

  /**
   Two counted views of one video by one viewer are at least half an hour apart, unless one
   was counted during an outage or a key was stolen before.
   */
  lemma CountedViewsAreFarApart(ss: seq<State>, ops: seq<Op>, j: nat, id: CallId, id': CallId)
    requires IsRun(ss, ops) && j < |ss|
    requires id != id' && id in ss[j].calls && id' in ss[j].calls && ss[j].calls[id].key == ss[j].calls[id'].key
    requires ss[j].calls[id].phase == ss[j].calls[id'].phase == Counted
    ensures ss[j].calls[id].claimedAt - ss[j].calls[id'].claimedAt >= 30 * 60 * 1000
      || ss[j].calls[id'].claimedAt - ss[j].calls[id].claimedAt >= 30 * 60 * 1000
      || !ss[j].calls[id].keyed || !ss[j].calls[id'].keyed
      || exists k :: 0 <= k < j && Steals(ss[k], ops[k])
  {
    if forall k :: 0 <= k < j ==> !Steals(ss[k], ops[k]) {
      SpacedExactlyWhenNoKeyIsStolen(ss, ops, j, Keyed);
      assert Spaced(ss[j], Keyed);
    }
  }

  /** No insert is still unresolved a whole window after its call began. */
  predicate Timely(s: State) {
    forall id :: id in s.calls && (s.calls[id].phase == Claimed || s.calls[id].phase == InsertFailed) ==>
      s.now < s.calls[id].claimedAt + WINDOW
  }

  lemma TimelyReleasesAreHonest(s: State, s': State, op: Op)
    requires Step(s, s', op) && Timely(s) && Spaced(s, All) && EveryKeyIsOwned(s)
    ensures !Steals(s, op)
  {
    if op.Release? && Redis.Live(s.db, s.calls[op.id].key, s.now) {
      var id :| Owns(s, id, s.calls[op.id].key);
      assert id != op.id ==> FarApart(s.calls[op.id], s.calls[id]);
    }
  }

  /** While Redis answers every claim and inserts take less than a window, succeed or fail, claims stay spaced. */
  lemma {:induction false} TimelyInsertsStealNothing(ss: seq<State>, ops: seq<Op>, j: nat)
    requires IsRun(ss, ops) && j < |ss|
    requires forall k :: 0 <= k < j ==> Timely(ss[k]) && !ops[k].Bypass?
    ensures Spaced(ss[j], All) && Undisturbed(ss, ops, j, All)
  {
    if 0 < j {
      TimelyInsertsStealNothing(ss, ops, j - 1);
      RunKeepsOwners(ss, ops, j - 1);
      TimelyReleasesAreHonest(ss[j - 1], ss[j], ops[j - 1]);
      StepKeepsSpacingExactlyWhen(ss[j - 1], ss[j], ops[j - 1], All);
    }
  }

  /** Once the key of a counted view is stolen, the same viewer's next view is counted within the window too. */
  lemma StolenKeyDoubleCounts(ss: seq<State>, ops: seq<Op>, j: nat, viewer: string, next: CallId)
    returns (owner: CallId, claimed: State, counted: State)
    requires IsRun(ss, ops) && j < |ops| && Steals(ss[j], ops[j])
    requires var mine := ss[j].calls[ops[j].id];
             mine.key == DedupeKey(mine.video, viewer) && mine.video in ss[j].tables.viewCount && next !in ss[j + 1].calls
             && forall id :: id in ss[j].calls && Owns(ss[j], id, mine.key) ==> ss[j].calls[id].phase == Counted
    ensures Step(ss[j + 1], claimed, Claim(next, ss[j].calls[ops[j].id].video, viewer)) && Step(claimed, counted, Commit(next))
    ensures owner in counted.calls && next in counted.calls && owner != next
    ensures counted.calls[owner].key == counted.calls[next].key
    ensures counted.calls[owner].phase == counted.calls[next].phase == Counted
    ensures !FarApart(counted.calls[owner], counted.calls[next])
  {
    var s, s', mine := ss[j], ss[j + 1], ss[j].calls[ops[j].id];
    RunKeepsOwners(ss, ops, j);
    owner :| Owns(s, owner, mine.key);
    assert Step(s, s', ops[j]) && owner != ops[j].id;
    var claim := Call(mine.video, mine.key, s'.now, true, Claimed);
    claimed := s'.(db := Redis.Stored(s'.db, mine.key, "1", WINDOW, s'.now), calls := s'.calls[next := claim]);
    counted := claimed.(calls := claimed.calls[next := claim.(phase := Counted)], tables := Recorded(claimed.tables, mine.video));
  }

  /** So is a view that comes while Redis cannot be reached, beside one counted just before. */
  lemma OutageDoubleCounts(s: State, video: VideoId, viewer: string) returns (ss: seq<State>, ops: seq<Op>)
    requires s.db == map[] && s.calls == map[] && CountersMatch(s.tables) && video in s.tables.viewCount
    ensures IsRun(ss, ops) && ss[0] == s && ops == [Claim(1, video, viewer), Commit(1), Bypass(2, video, viewer), Commit(2)]
    ensures var key := DedupeKey(video, viewer);
            ss[4].calls == map[1 := Call(video, key, s.now, true, Counted), 2 := Call(video, key, s.now, false, Counted)]
  {
    var key := DedupeKey(video, viewer);
    var first, second := Call(video, key, s.now, true, Claimed), Call(video, key, s.now, false, Claimed);
    var s1 := s.(db := Redis.Stored(s.db, key, "1", WINDOW, s.now), calls := s.calls[1 := first]);
    var s2 := s1.(calls := s1.calls[1 := first.(phase := Counted)], tables := Recorded(s1.tables, video));
    var s3 := s2.(calls := s2.calls[2 := second]);
    var s4 := s3.(calls := s3.calls[2 := second.(phase := Counted)], tables := Recorded(s3.tables, video));
    ss := [s, s1, s2, s3, s4];
    ops := [Claim(1, video, viewer), Commit(1), Bypass(2, video, viewer), Commit(2)];
    assert forall i :: 0 <= i < |ops| ==> Step(ss[i], ss[i + 1], ops[i]);
  }

  /** How many views of a video the first `j` steps counted. */
  function Commits(ss: seq<State>, ops: seq<Op>, video: VideoId, j: nat): nat
    requires j <= |ops| < |ss|
  {
    if j == 0 then 0
    else
      Commits(ss, ops, video, j - 1)
      + match ops[j - 1]
        case Commit(id) => if id in ss[j - 1].calls && ss[j - 1].calls[id].video == video then 1 else 0
        case _ => 0
  }

  lemma RecordingAddsOne(t: Tables, video: VideoId, v: VideoId)
    requires CountersMatch(t) && video in t.viewCount && v in t.viewCount
    ensures Recorded(t, video).viewCount[v] == t.viewCount[v] + if v == video then 1 else 0
    ensures Recorded(t, video).views == t.views + [video] && Recorded(t, video).viewCount.Keys == t.viewCount.Keys
  {
  }

  /** Every view counted adds one to its video's view_count, and nothing else ever changes it. */
  lemma {:induction false} ViewCountsAreCommits(ss: seq<State>, ops: seq<Op>, j: nat, video: VideoId)
    requires IsRun(ss, ops) && j < |ss| && video in ss[0].tables.viewCount
    ensures video in ss[j].tables.viewCount
    ensures ss[j].tables.viewCount[video] == ss[0].tables.viewCount[video] + Commits(ss, ops, video, j)
  {
    if 0 < j {
      ViewCountsAreCommits(ss, ops, j - 1, video);
      ViewCountsAlwaysMatch(ss, ops, j - 1);
      assert Step(ss[j - 1], ss[j], ops[j - 1]);
      if ops[j - 1].Commit? {
        RecordingAddsOne(ss[j - 1].tables, ss[j - 1].calls[ops[j - 1].id].video, video);
      }
    }
  }

  /** view_count is the number of committed rows, at every point of every interleaving. */
  lemma {:induction false} ViewCountsAlwaysMatch(ss: seq<State>, ops: seq<Op>, j: nat)
    requires IsRun(ss, ops) && j < |ss|
    ensures CountersMatch(ss[j].tables)
  {
    if 0 < j {
      ViewCountsAlwaysMatch(ss, ops, j - 1);
      assert Step(ss[j - 1], ss[j], ops[j - 1]);
      if ops[j - 1].Commit? {
        RecordingKeepsCounters(ss[j - 1].tables, ss[j - 1].calls[ops[j - 1].id].video);
      }
    }
  }

  /** An insert that fails after its window frees a key that is no longer its own. */
  lemma LateFailureDoubleCounts(s: State, video: VideoId, viewer: string) returns (ss: seq<State>, ops: seq<Op>)
    requires s.db == map[] && s.calls == map[] && CountersMatch(s.tables) && video in s.tables.viewCount
    ensures IsRun(ss, ops) && ss[0] == s
              && ops == [Claim(1, video, viewer), Wait(s.now + WINDOW), Claim(2, video, viewer), Commit(2),
                         FailInsert(1), Release(1, true), Claim(3, video, viewer), Commit(3)]
              && 2 in ss[8].calls && 3 in ss[8].calls
              && ss[8].calls[2] == ss[8].calls[3] == Call(video, DedupeKey(video, viewer), s.now + WINDOW, true, Counted)
  {
    var key, late := DedupeKey(video, viewer), s.now + WINDOW;
    var s1, s2, s3, s4 := LateSecondClaim(s, video, viewer);
    var s5, s6, s7, s8 := LateFailure(s4, video, viewer, late);
    ss := [s, s1, s2, s3, s4, s5, s6, s7, s8];
    ops := [Claim(1, video, viewer), Wait(late), Claim(2, video, viewer), Commit(2),
                FailInsert(1), Release(1, true), Claim(3, video, viewer), Commit(3)];
    assert forall i :: 0 <= i < |ops| ==> Step(ss[i], ss[i + 1], ops[i]);
  }

  /** One call claims, and a second claims and counts a window later, while the first is still storing. */
  lemma LateSecondClaim(s: State, video: VideoId, viewer: string) returns (s1: State, s2: State, s3: State, s4: State)
    requires s.db == map[] && s.calls == map[] && video in s.tables.viewCount
    ensures Step(s, s1, Claim(1, video, viewer)) && Step(s1, s2, Wait(s.now + WINDOW))
    ensures Step(s2, s3, Claim(2, video, viewer)) && Step(s3, s4, Commit(2))
    ensures var key, late := DedupeKey(video, viewer), s.now + WINDOW;
            && s4.now == late && video in s4.tables.viewCount
            && s4.calls == map[1 := Call(video, key, s.now, true, Claimed), 2 := Call(video, key, late, true, Counted)]
  {
    var key, late := DedupeKey(video, viewer), s.now + WINDOW;
    var mine, other := Call(video, key, s.now, true, Claimed), Call(video, key, late, true, Claimed);
    s1 := s.(db := Redis.Stored(s.db, key, "1", WINDOW, s.now), calls := s.calls[1 := mine]);
    s2 := s1.(now := late);
    s3 := s2.(db := Redis.Stored(s2.db, key, "1", WINDOW, late), calls := s2.calls[2 := other]);
    s4 := s3.(calls := s3.calls[2 := other.(phase := Counted)], tables := Recorded(s3.tables, video));
  }

  /** The first one's insert fails, frees the key, and a third call counts at once. */
  lemma LateFailure(s4: State, video: VideoId, viewer: string, late: int) returns (s5: State, s6: State, s7: State, s8: State)
    requires 1 in s4.calls && s4.calls[1].phase == Claimed && s4.calls[1].key == DedupeKey(video, viewer)
    requires 3 !in s4.calls && s4.now == late && video in s4.tables.viewCount
    ensures Step(s4, s5, FailInsert(1)) && Step(s5, s6, Release(1, true))
    ensures Step(s6, s7, Claim(3, video, viewer)) && Step(s7, s8, Commit(3))
    ensures s8.calls == (s4.calls - {1})[3 := Call(video, DedupeKey(video, viewer), late, true, Counted)]
  {
    var key := DedupeKey(video, viewer);
    var third := Call(video, key, late, true, Claimed);
    s5 := s4.(calls := s4.calls[1 := s4.calls[1].(phase := InsertFailed)]);
    s6 := s5.(db := s5.db - {key}, calls := s5.calls - {1});
    s7 := s6.(db := Redis.Stored(s6.db, key, "1", WINDOW, late), calls := s6.calls[3 := third]);
    s8 := s7.(calls := s7.calls[3 := third.(phase := Counted)], tables := Recorded(s7.tables, video));
    assert s8.calls == (s4.calls - {1})[3 := third.(phase := Counted)];
  }
}
