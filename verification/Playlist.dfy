/** Playlist entries: a table of (video, position) rows, read back in position order. */
module Playlists {
  import opened Basics
  import opened Sublists

  type VideoId = string
  type PlaylistId = string

  datatype Row = Row(video: VideoId, position: int)

  datatype PlaylistError = PlaylistNotFound | VideoAlreadyInPlaylist | PlaylistVideoNotFound

  /** UNIQUE (playlist_id, video_id) and UNIQUE (playlist_id, position), over one playlist's rows. */
  ghost predicate Unique(rows: set<Row>) {
    forall r, r' :: r in rows && r' in rows && (r.video == r'.video || r.position == r'.position) ==> r == r'
  }

  ghost predicate IsLast(rows: set<Row>, last: Row) {
    last in rows && forall r :: r in rows ==> r.position <= last.position
  }

  lemma {:induction false} LastExists(rows: set<Row>)
    requires rows != {}
    ensures exists last :: IsLast(rows, last)
  {
    var some :| some in rows;
    var others := rows - {some};
    assert forall r :: r in rows ==> r == some || r in others;
    if others == {} {
      assert IsLast(rows, some);
    } else {
      LastExists(others);
      var last :| IsLast(others, last);
      assert IsLast(rows, if some.position < last.position then last else some);
    }
  }

  ghost function Last(rows: set<Row>): (last: Row)
    requires rows != {}
    ensures IsLast(rows, last)
  {
    LastExists(rows);
    var last :| IsLast(rows, last);
    last
  }

  /** COALESCE(MAX(position), -1) + 1 */
  ghost function NextPosition(rows: set<Row>): int {
    if rows == {} then 0 else Last(rows).position + 1
  }

  function Having(rows: set<Row>, video: VideoId): set<Row> {
    set r | r in rows && r.video == video
  }

  /** ORDER BY position */
  ghost function Ordered(rows: set<Row>): seq<Row> {
    if rows == {} then [] else Ordered(rows - {Last(rows)}) + [Last(rows)]
  }

  function Videos(rows: seq<Row>): seq<VideoId> {
    seq(|rows|, k requires 0 <= k < |rows| => rows[k].video)
  }

  /** What a reader of the playlist sees. */
  ghost function Listing(rows: set<Row>): seq<VideoId> {
    Videos(Ordered(rows))
  }

  /** The abstract playlist: a sequence from which a video can be struck. */
  function Without(videos: seq<VideoId>, video: VideoId): seq<VideoId> {
    if videos == [] then []
    else
      var kept := Without(videos[..|videos| - 1], video);
      if videos[|videos| - 1] == video then kept else kept + [videos[|videos| - 1]]
  }

  lemma {:induction false} StruckIsSublist(videos: seq<VideoId>, video: VideoId)
    ensures IsSublist(Without(videos, video), videos)
  {
    if videos != [] {
      var before, last := videos[..|videos| - 1], videos[|videos| - 1];
      StruckIsSublist(before, video);
      var kept := Without(videos, video);
      if last != video {
        assert kept == Without(before, video) + [last];
        assert kept[..|kept| - 1] == Without(before, video);
      }
    }
  }

  lemma {:induction false} OthersAreKept(videos: seq<VideoId>, video: VideoId)
    ensures multiset(Without(videos, video)) == multiset(videos)[video := 0]
  {
    if videos != [] {
      var before, last := videos[..|videos| - 1], videos[|videos| - 1];
      OthersAreKept(before, video);
      assert videos == before + [last];
      assert multiset(videos) == multiset(before) + multiset{last};
    }
  }

  /** Striking a video leaves the others in the order they had, and every one of them. */
  lemma StrikingKeepsTheRest(videos: seq<VideoId>, video: VideoId)
    ensures IsSublist(Without(videos, video), videos)
    ensures multiset(Without(videos, video)) == multiset(videos)[video := 0]
  {
    StruckIsSublist(videos, video);
    OthersAreKept(videos, video);
  }

  lemma {:induction false} OrderedHoldsTheRows(rows: set<Row>)
    ensures |Ordered(rows)| == |rows| && forall r :: r in Ordered(rows) <==> r in rows
  {
    if rows != {} {
      OrderedHoldsTheRows(rows - {Last(rows)});
    }
  }

  lemma ListingHoldsTheVideos(rows: set<Row>, video: VideoId)
    ensures |Listing(rows)| == |rows|
    ensures video in Listing(rows) <==> Having(rows, video) != {}
  {
    OrderedHoldsTheRows(rows);
    if video in Listing(rows) {
      var k :| 0 <= k < |Listing(rows)| && Listing(rows)[k] == video;
      assert Ordered(rows)[k] in Having(rows, video);
    }
    if r :| r in Having(rows, video) {
      var k :| 0 <= k < |Ordered(rows)| && Ordered(rows)[k] == r;
      assert Listing(rows)[k] == video;
    }
  }

  ghost predicate Increasing(rows: seq<Row>) {
    forall i, j :: 0 <= i < j < |rows| ==> rows[i].position < rows[j].position
  }

  lemma {:induction false} OrderedIsIncreasing(rows: set<Row>)
    requires Unique(rows)
    ensures Increasing(Ordered(rows))
  {
    if rows != {} {
      var last := Last(rows);
      var before := Ordered(rows - {last});
      OrderedIsIncreasing(rows - {last});
      OrderedHoldsTheRows(rows - {last});
      forall i | 0 <= i < |before| ensures before[i].position < last.position {
        assert before[i] in rows - {last};
      }
      IncreasingAppends(before, last);
    }
  }

  lemma IncreasingAppends(before: seq<Row>, last: Row)
    requires Increasing(before) && forall i :: 0 <= i < |before| ==> before[i].position < last.position
    ensures Increasing(before + [last])
  {
  }

  /** Positions strictly increase along the listing, and no video occurs twice. */
  lemma ListingIsInOrder(rows: set<Row>)
    requires Unique(rows)
    ensures Increasing(Ordered(rows))
    ensures forall i, j :: 0 <= i < j < |Listing(rows)| ==> Listing(rows)[i] != Listing(rows)[j]
  {
    OrderedIsIncreasing(rows);
    OrderedHoldsTheRows(rows);
    var ordered := Ordered(rows);
    forall i, j | 0 <= i < j < |ordered| ensures ordered[i].video != ordered[j].video {
      assert ordered[i] in rows && ordered[j] in rows && ordered[i].position < ordered[j].position;
    }
  }

  lemma LastIsUnique(rows: set<Row>, last: Row)
    requires Unique(rows) && IsLast(rows, last)
    ensures Last(rows) == last
  {
  }

  lemma ListingEndsWithLast(rows: set<Row>, last: Row)
    requires Unique(rows) && IsLast(rows, last)
    ensures Listing(rows) == Listing(rows - {last}) + [last.video]
  {
    LastIsUnique(rows, last);
  }

  /** A row beyond all others is listed last. */
  lemma InsertingAppends(rows: set<Row>, added: Row)
    requires Unique(rows + {added}) && added !in rows
    requires forall r :: r in rows ==> r.position < added.position
    ensures Listing(rows + {added}) == Listing(rows) + [added.video]
  {
    ListingEndsWithLast(rows + {added}, added);
    assert rows + {added} - {added} == rows;
  }

  lemma NewVideoAppends(rows: set<Row>, added: Row)
    requires Unique(rows) && Having(rows, added.video) == {}
    requires forall r :: r in rows ==> r.position < added.position
    ensures Unique(rows + {added}) && added !in rows
    ensures Listing(rows + {added}) == Listing(rows) + [added.video]
  {
    assert forall r :: r in rows && r.video == added.video ==> r in Having(rows, added.video);
    InsertingAppends(rows, added);
  }

  lemma {:induction false} WithoutAbsent(videos: seq<VideoId>, video: VideoId)
    requires video !in videos
    ensures Without(videos, video) == videos
  {
    if videos != [] {
      WithoutAbsent(videos[..|videos| - 1], video);
    }
  }

  /** Deleting a video's row strikes it from the listing and leaves the order of the rest. */
  lemma {:induction false} DeletingStrikes(rows: set<Row>, video: VideoId)
    requires Unique(rows)
    ensures Unique(rows - Having(rows, video))
    ensures Listing(rows - Having(rows, video)) == Without(Listing(rows), video)
  {
    if rows == {} {
      assert rows - Having(rows, video) == {};
    } else {
      var last := Last(rows);
      var before := rows - {last};
      var kept := before - Having(before, video);
      DeletingStrikes(before, video);
      ListingEndsWithLast(rows, last);
      assert Listing(rows)[..|Listing(rows)| - 1] == Listing(before);
      if last.video == video {
        assert rows - Having(rows, video) == kept;
      } else {
        assert rows - Having(rows, video) == kept + {last};
        InsertingAppends(kept, last);
      }
    }
  }

  /** MAX(position) + 1 collides with no row, and is the least position that comes after all; the first row is at 0. */
  lemma NextPositionIsBeyond(rows: set<Row>)
    ensures forall r :: r in rows ==> r.position < NextPosition(rows)
    ensures if rows == {} then NextPosition(rows) == 0 else exists r :: r in rows && r.position == NextPosition(rows) - 1
  {
    if rows != {} {
      assert IsLast(rows, Last(rows));
    }
  }

  class SocialRepository {
    /** The playlists table, each with its rows of playlist_videos. */
    var playlists: map<PlaylistId, set<Row>>

    ghost predicate Valid()
      reads this
    {
      forall p :: p in playlists ==> Unique(playlists[p])
    }

    constructor ()
      ensures Valid() && playlists == map[]
    {
      playlists := map[];
    }

    method MaxPositionPlusOne(rows: set<Row>) returns (position: int)
      ensures forall row :: row in rows ==> row.position < position
      ensures rows == {} ==> position == 0
      ensures rows != {} ==> exists row :: row in rows && position == row.position + 1
    {
      position := 0;
      if rows != {} {
        LastExists(rows);
        var last :| last in rows && forall row :: row in rows ==> row.position <= last.position;
        position := last.position + 1;
      }
    }

    method AddPlaylistVideo(playlist: PlaylistId, video: VideoId) returns (r: Result<int, PlaylistError>)
      requires Valid()
      modifies this
      ensures Valid()
      ensures r.Err? ==> playlists == old(playlists)
      ensures playlist !in old(playlists) ==> r == Err(PlaylistNotFound)
      ensures playlist in old(playlists) ==>
        (r == Err(VideoAlreadyInPlaylist) <==> video in Listing(old(playlists)[playlist])) && r != Err(PlaylistNotFound)
        && r != Err(PlaylistVideoNotFound)
      ensures r.Ok? ==> r.value == NextPosition(old(playlists)[playlist])
      ensures r.Ok? ==>
        && playlists == old(playlists)[playlist := old(playlists)[playlist] + {Row(video, r.value)}]
        && Listing(playlists[playlist]) == Listing(old(playlists)[playlist]) + [video]
    {
      if playlist !in playlists {
        return Err(PlaylistNotFound);
      }
      var rows := playlists[playlist];
      ListingHoldsTheVideos(rows, video);
      var position := MaxPositionPlusOne(rows);
      if Having(rows, video) != {} {
        return Err(VideoAlreadyInPlaylist);
      }
      NextPositionIsBeyond(rows);
      var added := Row(video, position);
      NewVideoAppends(rows, added);
      playlists := playlists[playlist := rows + {added}];
      r := Ok(position);
    }

    method RemovePlaylistVideo(playlist: PlaylistId, video: VideoId) returns (r: Result<(), PlaylistError>)
      requires Valid()
      modifies this
      ensures Valid()
      ensures playlists.Keys == old(playlists).Keys
      ensures forall p :: p in playlists && p != playlist ==> playlists[p] == old(playlists)[p]
      ensures r == if playlist in playlists && video in Listing(old(playlists)[playlist])
                   then Ok(()) else Err(PlaylistVideoNotFound)
      ensures playlist in playlists ==>
        && playlists[playlist] <= old(playlists)[playlist]
        && Listing(playlists[playlist]) == Without(Listing(old(playlists)[playlist]), video)
    {
      if playlist !in playlists {
        return Err(PlaylistVideoNotFound);
      }
      var rows := playlists[playlist];
      ListingHoldsTheVideos(rows, video);
      DeletingStrikes(rows, video);
      var deleted := Having(rows, video);
      playlists := playlists[playlist := rows - deleted];
      r := if |deleted| == 0 then Err(PlaylistVideoNotFound) else Ok(());
    }

    method CountPlaylistVideos(playlist: PlaylistId) returns (n: nat)
      ensures n == if playlist in playlists then |Listing(playlists[playlist])| else 0
    {
      if playlist !in playlists {
        return 0;
      }
      ListingHoldsTheVideos(playlists[playlist], "");
      n := |playlists[playlist]|;
    }
  }
}
