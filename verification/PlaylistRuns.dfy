/**
 One playlist under concurrent use: appending transactions that lock its row,
 insert and commit, with removals landing between any two of their statements.
 */
module PlaylistRuns {
  import opened Basics
  import opened Playlists

  type TxId = nat

  datatype Tx = Waiting(video: VideoId) | Locked(video: VideoId) | Inserted(row: Row)

  /** `rows` are the committed rows; an inserted row is visible to its own transaction only. */
  datatype State = State(present: bool, rows: set<Row>, lock: Option<TxId>, txs: map<TxId, Tx>)

  datatype Op =
    | Begin(tx: TxId, video: VideoId)
    | Lock(tx: TxId)
    | Insert(tx: TxId)
    | Commit(tx: TxId)
    | Abort(tx: TxId)
    | Remove(video: VideoId)
    | DeletePlaylist

  ghost predicate Clashes(r: Row, row: Row) {
    r.video == row.video || r.position == row.position
  }

  /** Some other row, committed or not yet, holds the same video or the same position. */
  ghost predicate Taken(s: State, row: Row) {
    || (exists r :: r in s.rows && Clashes(r, row))
    || (exists tx :: tx in s.txs && s.txs[tx].Inserted? && Clashes(s.txs[tx].row, row))
  }

  function Ended(s: State, tx: TxId): State {
    s.(lock := if s.lock == Some(tx) then None else s.lock, txs := s.txs - {tx})
  }

  ghost function Pending(s: State, tx: TxId): Row
    requires tx in s.txs && s.txs[tx].Locked?
  {
    Row(s.txs[tx].video, NextPosition(s.rows))
  }

  ghost function Apply(s: State, op: Op): State {
    match op
    case Begin(tx, video) => if tx in s.txs then s else s.(txs := s.txs[tx := Waiting(video)])
    case Lock(tx) =>
      if tx !in s.txs || !s.txs[tx].Waiting? || s.lock.Some? then s
      else if !s.present then Ended(s, tx)
      else s.(lock := Some(tx), txs := s.txs[tx := Locked(s.txs[tx].video)])
    case Insert(tx) =>
      if tx !in s.txs || !s.txs[tx].Locked? then s
      else if Taken(s, Pending(s, tx)) then Ended(s, tx)
      else s.(txs := s.txs[tx := Inserted(Pending(s, tx))])
    case Commit(tx) =>
      if tx !in s.txs || !s.txs[tx].Inserted? then s
      else Ended(s.(rows := s.rows + {s.txs[tx].row}), tx)
    case Abort(tx) => Ended(s, tx)
    case Remove(video) => s.(rows := s.rows - Having(s.rows, video))
    case DeletePlaylist => if s.lock.Some? then s else s.(present := false, rows := {})
  }

  ghost predicate IsRun(ss: seq<State>, ops: seq<Op>) {
    && |ss| == |ops| + 1
    && ss[0] == State(true, {}, None, map[])
    && forall i :: 0 <= i < |ops| ==> ss[i + 1] == Apply(ss[i], ops[i])
  }

  /** A row that could be committed next: beyond every committed position, and of a video not listed. */
  ghost predicate Appendable(rows: set<Row>, row: Row) {
    forall r :: r in rows ==> r.position < row.position && r.video != row.video
  }

  ghost predicate Orderly(s: State) {
    && Unique(s.rows)
    && (forall tx :: tx in s.txs && !s.txs[tx].Waiting? ==> s.lock == Some(tx))
    && (forall tx :: tx in s.txs && s.txs[tx].Inserted? ==> Appendable(s.rows, s.txs[tx].row))
  }

  /** The lock makes the computed position free, so only a repeated video is ever refused. */
  lemma OnlyDuplicatesAreRefused(s: State, tx: TxId)
    requires Orderly(s) && tx in s.txs && s.txs[tx].Locked?
    ensures Taken(s, Pending(s, tx)) <==> s.txs[tx].video in Listing(s.rows)
    ensures forall r :: r in s.rows ==> r.position != Pending(s, tx).position
    ensures forall other :: other in s.txs ==> !s.txs[other].Inserted?
  {
    var row := Pending(s, tx);
    NextPositionIsBeyond(s.rows);
    ListingHoldsTheVideos(s.rows, row.video);
    if r :| r in Having(s.rows, row.video) {
      assert r in s.rows && Clashes(r, row);
    }
    if r :| r in s.rows && Clashes(r, row) {
      assert r in Having(s.rows, row.video);
    }
  }

  lemma StepIsOrderly(s: State, op: Op)
    requires Orderly(s)
    ensures Orderly(Apply(s, op))
  {
    if op.Insert? && op.tx in s.txs && s.txs[op.tx].Locked? {
      NextPositionIsBeyond(s.rows);
      if !Taken(s, Pending(s, op.tx)) {
        assert forall r :: r in s.rows ==> !Clashes(r, Pending(s, op.tx));
      }
    }
  }

  /** What a step does to the listing, said of a plain sequence of videos. */
  ghost function Abstract(s: State, op: Op): seq<VideoId> {
    var listing := Listing(s.rows);
    match op
    case Commit(tx) => if tx in s.txs && s.txs[tx].Inserted? then listing + [s.txs[tx].row.video] else listing
    case Remove(video) => Without(listing, video)
    case DeletePlaylist => if s.lock.Some? then listing else []
    case _ => listing
  }

  lemma AppendableAppends(rows: set<Row>, row: Row)
    requires Unique(rows) && Appendable(rows, row)
    ensures Listing(rows + {row}) == Listing(rows) + [row.video] && row.video !in Listing(rows)
  {
    InsertingAppends(rows, row);
    ListingHoldsTheVideos(rows, row.video);
    assert Having(rows, row.video) == {};
  }

  lemma StepRefines(s: State, op: Op)
    requires Orderly(s)
    ensures Listing(Apply(s, op).rows) == Abstract(s, op)
    ensures op.Commit? && op.tx in s.txs && s.txs[op.tx].Inserted? ==> s.txs[op.tx].row.video !in Listing(s.rows)
  {
    match op
    case Commit(tx) =>
      if tx in s.txs && s.txs[tx].Inserted? {
        AppendableAppends(s.rows, s.txs[tx].row);
      }
    case Remove(video) => DeletingStrikes(s.rows, video);
    case _ =>
  }

  lemma {:induction false} RunIsOrderly(ss: seq<State>, ops: seq<Op>, j: nat)
    requires IsRun(ss, ops) && j < |ss|
    ensures Orderly(ss[j])
  {
    if 0 < j {
      RunIsOrderly(ss, ops, j - 1);
      StepIsOrderly(ss[j - 1], ops[j - 1]);
    }
  }

  /**
   However the statements interleave: the table's unique constraints hold at every
   moment, the listing is free of duplicates, and each step does to it exactly what
   it would do to a sequence: a commit appends a video that is not in it, a removal
   strikes one and keeps the order of the rest, everything else leaves it alone.
   */
  lemma ListingRefinesSequence(ss: seq<State>, ops: seq<Op>, i: nat)
    requires IsRun(ss, ops) && i < |ops|
    ensures Unique(ss[i].rows) && Unique(ss[i + 1].rows)
    ensures Listing(ss[i + 1].rows) == Abstract(ss[i], ops[i])
    ensures forall p, q :: 0 <= p < q < |Listing(ss[i].rows)| ==> Listing(ss[i].rows)[p] != Listing(ss[i].rows)[q]
    ensures ops[i].Commit? && ops[i].tx in ss[i].txs && ss[i].txs[ops[i].tx].Inserted?
      ==> ss[i].txs[ops[i].tx].row.video !in Listing(ss[i].rows)
  {
    RunIsOrderly(ss, ops, i);
    StepRefines(ss[i], ops[i]);
    StepIsOrderly(ss[i], ops[i]);
    ListingIsInOrder(ss[i].rows);
  }

  /** An insert is refused exactly when the video is already listed, and the refusal changes no row. */
  lemma InsertsAreRefusedExactlyWhenListed(ss: seq<State>, ops: seq<Op>, i: nat)
    requires IsRun(ss, ops) && i < |ops|
    requires ops[i].Insert? && ops[i].tx in ss[i].txs && ss[i].txs[ops[i].tx].Locked?
    ensures var tx := ops[i].tx;
            && (tx !in ss[i + 1].txs <==> ss[i].txs[tx].video in Listing(ss[i].rows)) && ss[i + 1].rows == ss[i].rows
            && (tx in ss[i + 1].txs ==> ss[i + 1].txs[tx] == Inserted(Row(ss[i].txs[tx].video, NextPosition(ss[i].rows))))
  {
    RunIsOrderly(ss, ops, i);
    OnlyDuplicatesAreRefused(ss[i], ops[i].tx);
  }

  /** The lock is granted exactly when it is free and the playlist exists; of a playlist that is gone the transaction ends. */
  lemma LockIsGrantedExactlyWhen(s: State, tx: TxId)
    requires tx in s.txs && s.txs[tx].Waiting?
    ensures var s' := Apply(s, Lock(tx));
            && s'.rows == s.rows
            && (tx in s'.txs && s'.txs[tx].Locked? <==> s.lock.None? && s.present)
            && (tx in s'.txs && s'.txs[tx].Locked? ==> s'.lock == Some(tx) && s'.txs[tx].video == s.txs[tx].video)
            && (tx !in s'.txs <==> s.lock.None? && !s.present)
  {
  }

  /** And whoever begins alone, locks, inserts and commits gets the video listed last, unless it was listed. */
  lemma AppendingAlone(s: State, tx: TxId, video: VideoId)
    requires Orderly(s) && s.present && s.lock.None? && tx !in s.txs && video !in Listing(s.rows)
    ensures var s1 := Apply(s, Begin(tx, video));
            var s2 := Apply(s1, Lock(tx));
            var s3 := Apply(s2, Insert(tx));
            var s4 := Apply(s3, Commit(tx));
            Listing(s4.rows) == Listing(s.rows) + [video] && s4.lock.None? && tx !in s4.txs
  {
    var s1 := Apply(s, Begin(tx, video));
    var s2 := Apply(s1, Lock(tx));
    StepIsOrderly(s, Begin(tx, video));
    StepIsOrderly(s1, Lock(tx));
    OnlyDuplicatesAreRefused(s2, tx);
    var s3 := Apply(s2, Insert(tx));
    StepIsOrderly(s2, Insert(tx));
    StepRefines(s3, Commit(tx));
  }
}
