/** The queue worker in remote mode: stage the raw file, transcode, upload, clean up. */
module Worker {
  import opened Basics
  import opened VideoRecords
  import opened Transcoding

  type Content = seq<int>

  /** The files a job has on its local disk. */
  datatype File = Raw | Output(path: string) | Thumbnail

  type Disk = map<File, Content>
  type Store = map<string, Content>

  datatype TaskError = LoadFailed | StageFailed | ProcessFailed | UploadFailed

  /** The storage key each local file belongs under; `raw` is the base name of the uploaded file. */
  function KeyOf(id: VideoId, raw: string, f: File): string {
    match f
    case Raw => "raw/" + raw
    case Output(path) => "transcoded/" + id + "/" + path
    case Thumbnail => "thumbnails/" + id + ".jpg"
  }

  lemma KeysAreDistinct(id: VideoId, raw: string, f: File, f': File)
    ensures KeyOf(id, raw, f) == KeyOf(id, raw, f') ==> f == f'
  {
    var k, k' := KeyOf(id, raw, f), KeyOf(id, raw, f');
    assert k[0] == (if f.Raw? then 'r' else 't') && k'[0] == if f'.Raw? then 'r' else 't';
    assert !f.Raw? ==> k[1] == if f.Output? then 'r' else 'h';
    assert !f'.Raw? ==> k'[1] == if f'.Output? then 'r' else 'h';
    if f.Output? && f'.Output? && k == k' {
      var prefix := "transcoded/" + id + "/";
      assert f.path == k[|prefix|..] == k'[|prefix|..] == f'.path;
    }
  }

  /** The playlist the row of a ready video names. */
  const MASTER := Output("hls/master.m3u8")

  /** Keys are where the rest of the service looks: the master playlist where the row says, the thumbnail under the video's id. */
  lemma KeysAreWhereReadersLook(id: VideoId, raw: string, path: string)
    ensures KeyOf(id, raw, MASTER) == MasterKey(id)
    ensures KeyOf(id, raw, Thumbnail) == "thumbnails/" + id + ".jpg"
    ensures "transcoded/" + id + "/" <= KeyOf(id, raw, Output(path))
    ensures KeyOf(id, raw, Output(path))[|"transcoded/" + id + "/"|..] == path
    ensures KeyOf(id, raw, Raw) == "raw/" + raw
  {
    assert "transcoded/" + id + "/" + "hls/master.m3u8" == "transcoded/" + id + "/hls/master.m3u8";
  }

  lemma EarlierSlashShows(a: string, x: string, b: string, y: string)
    requires a + "/" + x == b + "/" + y && |a| < |b|
    ensures '/' in b
  {
    assert b[|a|] == (b + "/" + y)[|a|] == (a + "/" + x)[|a|];
  }

  lemma FirstSlash(a: string, x: string, b: string, y: string)
    requires '/' !in a && '/' !in b && a + "/" + x == b + "/" + y
    ensures a == b && x == y
  {
    var t := a + "/" + x;
    if |a| < |b| {
      EarlierSlashShows(a, x, b, y);
    } else if |b| < |a| {
      EarlierSlashShows(b, y, a, x);
    }
    assert a == t[..|a|] && b == t[..|b|] && x == t[|a| + 1..] && y == t[|b| + 1..];
  }

  lemma PrefixDrops(prefix: string, a: string, b: string)
    requires prefix + a == prefix + b
    ensures a == b
  {
    assert a == (prefix + a)[|prefix|..] && b == (prefix + b)[|prefix|..];
  }

  lemma SuffixDrops(a: string, b: string, suffix: string)
    requires a + suffix == b + suffix
    ensures a == b
  {
    assert |a| == |b|;
    assert a == (a + suffix)[..|a|] && b == (b + suffix)[..|b|];
  }

  lemma Regrouped(a: string, b: string, c: string, d: string)
    ensures a + b + c + d == a + (b + c + d) && a + b + c == a + (b + c)
  {
  }

  lemma OutputKeysSeparate(id: VideoId, path: string, id': VideoId, path': string)
    requires '/' !in id && '/' !in id' && "transcoded/" + id + "/" + path == "transcoded/" + id' + "/" + path'
    ensures id == id' && path == path'
  {
    Regrouped("transcoded/", id, "/", path);
    Regrouped("transcoded/", id', "/", path');
    PrefixDrops("transcoded/", id + "/" + path, id' + "/" + path');
    FirstSlash(id, path, id', path');
  }

  lemma ThumbnailKeysSeparate(id: VideoId, id': VideoId)
    requires "thumbnails/" + id + ".jpg" == "thumbnails/" + id' + ".jpg"
    ensures id == id'
  {
    SuffixDrops("thumbnails/" + id, "thumbnails/" + id', ".jpg");
    PrefixDrops("thumbnails/", id, id');
  }

  /** No output of one video is ever filed under a key of another's, whatever the raw files are called. */
  lemma VideosDoNotShareKeys(id: VideoId, raw: string, f: File, id': VideoId, raw': string, f': File)
    requires '/' !in id && '/' !in id' && f != Raw && f' != Raw
    ensures KeyOf(id, raw, f) == KeyOf(id', raw', f') <==> id == id' && f == f'
  {
    var k, k' := KeyOf(id, raw, f), KeyOf(id', raw', f');
    if k == k' {
      assert k[1] == (if f.Output? then 'r' else 'h') && k'[1] == if f'.Output? then 'r' else 'h';
      if f.Output? {
        OutputKeysSeparate(id, f.path, id', f'.path);
      } else {
        ThumbnailKeysSeparate(id, id');
      }
    }
  }

  predicate StoredAs(store: Store, key: string, content: Content) {
    key in store && store[key] == content
  }

  /** The key holds the same before and after, or is absent both times. */
  predicate SameUnder(key: string, before: Store, after: Store) {
    (key in before <==> key in after) && (key in before ==> before[key] == after[key])
  }

  /** The file is in the store, as it is on disk. */
  predicate Uploaded(id: VideoId, raw: string, disk: Disk, store: Store, f: File)
    requires f in disk
  {
    StoredAs(store, KeyOf(id, raw, f), disk[f])
  }

  function Outputs(disk: Disk): set<File> {
    set f | f in disk && f != Raw
  }

  /** The disk with the raw file on it; one already there is taken as it is. */
  function Staged(disk: Disk, store: Store, key: string): Disk
    requires Raw in disk || key in store
  {
    if Raw in disk then disk else disk[Raw := store[key]]
  }

  /** The disk after an execution on this row: `made` is written over what was there, if ffmpeg is run at all. */
  function Written(disk: Disk, made: Disk, o: Outcomes, v: Video): Disk {
    if RunsFFmpeg(o, v) then disk + (made - {Raw}) else disk
  }

  /** After a complete upload each output on disk is under its key, and the keys of other outputs hold what they held. */
  ghost predicate AllUploaded(id: VideoId, raw: string, disk: Disk, store: Store, store': Store) {
    forall f :: f != Raw ==>
      if f in disk then Uploaded(id, raw, disk, store', f) else SameUnder(KeyOf(id, raw, f), store, store')
  }

  /** What a complete upload from this disk leaves where readers look. */
  ghost predicate Published(id: VideoId, disk: Disk, store: Store) {
    && (MASTER in disk ==> StoredAs(store, MasterKey(id), disk[MASTER]))
    && (Thumbnail in disk ==> StoredAs(store, "thumbnails/" + id + ".jpg", disk[Thumbnail]))
    && forall path :: Output(path) in disk ==> StoredAs(store, "transcoded/" + id + "/" + path, disk[Output(path)])
  }

  lemma UploadsArePublished(id: VideoId, raw: string, disk: Disk, store: Store, store': Store)
    requires AllUploaded(id, raw, disk, store, store')
    ensures Published(id, disk, store')
  {
    KeysAreWhereReadersLook(id, raw, "");
    assert MASTER in disk ==> Uploaded(id, raw, disk, store', MASTER);
    assert Thumbnail in disk ==> Uploaded(id, raw, disk, store', Thumbnail);
    forall path | Output(path) in disk ensures StoredAs(store', "transcoded/" + id + "/" + path, disk[Output(path)]) {
      assert Uploaded(id, raw, disk, store', Output(path));
    }
  }

  /** Everything ffmpeg made, as it made it; the raw file is no output. */
  ghost predicate MadeAndPublished(id: VideoId, made: Disk, store: Store) {
    Published(id, made - {Raw}, store)
  }

  lemma WrittenIsPublished(id: VideoId, disk: Disk, made: Disk, o: Outcomes, v: Video, store: Store)
    requires RunsFFmpeg(o, v) && Published(id, Written(disk, made, o, v), store)
    ensures MadeAndPublished(id, made, store)
  {
    var all := Written(disk, made, o, v);
    assert forall f :: f in made && f != Raw ==> f in all && all[f] == made[f];
  }

  /**
   Whichever disk the upload ran from, an output is in the store with a given content exactly
   when the disk held it so, or held nothing of it and the store had it already.
   */
  lemma StoredExactlyWhen(id: VideoId, raw: string, disk: Disk, store: Store, store': Store, f: File, content: Content)
    requires AllUploaded(id, raw, disk, store, store') && f != Raw
    ensures StoredAs(store', KeyOf(id, raw, f), content) <==>
      if f in disk then disk[f] == content else StoredAs(store, KeyOf(id, raw, f), content)
  {
    assert if f in disk then Uploaded(id, raw, disk, store', f) else SameUnder(KeyOf(id, raw, f), store, store');
  }

  /** Nothing but upload targets changed, and each of those only to what is on disk. */
  ghost predicate OnlyUploads(id: VideoId, raw: string, disk: Disk, store: Store, store': Store) {
    && store.Keys <= store'.Keys
    && forall key :: key in store' ==>
         || (key in store && store'[key] == store[key])
         || exists f :: f in Outputs(disk) && key == KeyOf(id, raw, f) && store'[key] == disk[f]
  }

  /** The thumbnail path with forward slashes; `toSlash` is the platform's conversion. */
  function Normalized(v: Video, toSlash: string -> string, saved: bool): Video {
    if v.status == Ready && v.thumbnail.Some? && toSlash(v.thumbnail.value) != v.thumbnail.value && saved
    then ReadyRow(v, v.qualities, toSlash(v.thumbnail.value)) else v
  }

  /** Only a ready row with a thumbnail path that changes is touched, and nothing in it but the path, its progress being full. */
  lemma NormalizingChanges(v: Video, toSlash: string -> string, saved: bool)
    ensures var v' := Normalized(v, toSlash, saved);
            && v' == v.(thumbnail := v'.thumbnail, progress := v'.progress)
            && (v.status == Ready && v.thumbnail.Some? && saved ==> v'.thumbnail == Some(toSlash(v.thumbnail.value)))
            && (v.status != Ready || v.thumbnail.None? || !saved ==> v' == v)
            && (v.thumbnail.Some? && toSlash(v.thumbnail.value) == v.thumbnail.value ==> v' == v)
            && (v.progress == 100 ==> v'.progress == 100)
  {
  }

  /**
   What can go wrong in one execution besides transcoding itself: loading the row,
   opening or copying the raw object, removing the `copied` bytes of a copy that failed,
   rewriting the thumbnail path, any single upload, any single removal.
   */
  datatype Faults = Faults(
    loadOk: bool, openOk: bool, copyOk: bool, copied: nat, partRemoved: bool,
    pathSaved: bool, uploads: File -> bool, removes: File -> bool)

  /** What a failed staging leaves: the part that was copied, if there was one and it could not be removed. */
  function Unstaged(disk: Disk, store: Store, key: string, faults: Faults): Disk {
    if Raw in disk || !faults.openOk || key !in store || faults.partRemoved then disk
    else disk[Raw := store[key][..Min(faults.copied, |store[key]|)]]
  }

  /** What is left once the local copies that can be removed are gone. */
  function CleanedUp(disk: Disk, faults: Faults): Disk {
    map f | f in disk && !faults.removes(f) :: disk[f]
  }

  /** The row of a transcoded video after its thumbnail path has been seen to. */
  ghost predicate Finished(
    id: VideoId, source: Source, o: Outcomes, toSlash: string -> string, faults: Faults, v: Video, v': Video)
  {
    exists ready :: Processed(id, source, o, v, ready) && v' == Normalized(ready, toSlash, faults.pathSaved)
  }

  lemma FinishedFrom(id: VideoId, source: Source, o: Outcomes, toSlash: string -> string, faults: Faults, v: Video, ready: Video)
    requires Processed(id, source, o, v, ready) && ready.status == Ready
    ensures Finished(id, source, o, toSlash, faults, v, Normalized(ready, toSlash, faults.pathSaved))
    ensures Normalized(ready, toSlash, faults.pathSaved).status == Ready
  {
  }

  lemma GoodAnswerMeansReady(id: VideoId, source: Source, o: Outcomes, v: Video, ready: Video)
    requires Processed(id, source, o, v, ready) && Answer(source, o, v).Ok?
    ensures RunsFFmpeg(o, v) && ready.status == Ready
  {
  }

  class VideoProcessingHandler {
    const service: TranscodingService
    var disk: Disk
    var store: Store

    constructor (service: TranscodingService)
      ensures this.service == service && disk == map[] && store == map[]
    {
      this.service := service;
      disk, store := map[], map[];
    }

    /** A file already on disk is reused as it is; a copy that fails is removed again, if that can be done. */
    method StageRawFile(key: string, faults: Faults) returns (ok: bool)
      modifies this`disk
      ensures ok <==> Raw in old(disk) || (faults.openOk && key in store && faults.copyOk)
      ensures disk == if ok then Staged(old(disk), store, key) else Unstaged(old(disk), store, key, faults)
      ensures !ok ==> (disk == old(disk) <==> !faults.openOk || key !in store || faults.partRemoved)
      ensures ok && key in store ==> (disk[Raw] == store[key] <==> (Raw in old(disk) ==> old(disk)[Raw] == store[key]))
    {
      if Raw in disk {
        return true;
      }
      if !faults.openOk || key !in store {
        return false;
      }
      if !faults.copyOk {
        disk := disk[Raw := store[key][..Min(faults.copied, |store[key]|)]];
        if faults.partRemoved {
          disk := disk - {Raw};
        }
        return false;
      }
      disk := disk[Raw := store[key]];
      ok := true;
    }

    /** Uploads the outputs one by one, in whatever order, up to the first failure. */
    method UploadOutputs(id: VideoId, raw: string, faults: Faults) returns (ok: bool)
      modifies this`store
      ensures OnlyUploads(id, raw, disk, old(store), store)
      ensures ok ==> forall f :: f in Outputs(disk) ==> Uploaded(id, raw, disk, store, f)
      ensures SameUnder("raw/" + raw, old(store), store)
      ensures forall f :: f !in disk && f != Raw ==> SameUnder(KeyOf(id, raw, f), old(store), store)
      ensures ok <==> forall f :: f in Outputs(disk) ==> faults.uploads(f)
    {
      var pending := Outputs(disk);
      while pending != {}
        invariant pending <= Outputs(disk)
        invariant OnlyUploads(id, raw, disk, old(store), store)
        invariant forall f :: f in Outputs(disk) && f !in pending ==> Uploaded(id, raw, disk, store, f)
        invariant forall f :: f !in disk && f != Raw ==> SameUnder(KeyOf(id, raw, f), old(store), store)
        invariant SameUnder("raw/" + raw, old(store), store)
        invariant forall f :: f in Outputs(disk) && f !in pending ==> faults.uploads(f)
        decreases |pending|
      {
        var f :| f in pending;
        if !faults.uploads(f) {
          return false;
        }
        ghost var before := store;
        KeysAreDistinct(id, raw, f, Raw);
        store := store[KeyOf(id, raw, f) := disk[f]];
        pending := pending - {f};
        forall g | g in Outputs(disk) && g !in pending ensures Uploaded(id, raw, disk, store, g) {
          KeysAreDistinct(id, raw, f, g);
          assert g != f ==> Uploaded(id, raw, disk, before, g);
        }
        forall g | g !in disk && g != Raw ensures SameUnder(KeyOf(id, raw, g), old(store), store) {
          KeysAreDistinct(id, raw, f, g);
          assert SameUnder(KeyOf(id, raw, g), old(store), before);
        }
      }
      ok := true;
    }

    /** Best effort: a file that cannot be removed stays. */
    method RemoveLocalCopies(faults: Faults)
      modifies this`disk
      ensures disk == CleanedUp(old(disk), faults)
    {
      disk := map f | f in disk && !faults.removes(f) :: disk[f];
    }

    method SyncOutputsToStore(id: VideoId, raw: string, faults: Faults) returns (ok: bool)
      modifies this
      ensures OnlyUploads(id, raw, old(disk), old(store), store)
      ensures SameUnder("raw/" + raw, old(store), store)
      ensures ok <==> forall f :: f in Outputs(old(disk)) ==> faults.uploads(f)
      ensures ok ==> AllUploaded(id, raw, old(disk), old(store), store)
      ensures disk == if ok then CleanedUp(old(disk), faults) else old(disk)
    {
      ok := UploadOutputs(id, raw, faults);
      if ok {
        assert AllUploaded(id, raw, disk, old(store), store);
        RemoveLocalCopies(faults);
      }
    }

    /** Best effort as well. */
    method NormalizeThumbnailPath(id: VideoId, toSlash: string -> string, saved: bool)
      requires id in service.videos.rows
      modifies service.videos
      ensures service.videos.rows == old(service.videos.rows)[id := Normalized(old(service.videos.rows)[id], toSlash, saved)]
    {
      var video := service.videos.rows[id];
      if video.status != Ready || video.thumbnail.None? {
        return;
      }
      var normalized := toSlash(video.thumbnail.value);
      if normalized == video.thumbnail.value {
        return;
      }
      service.videos.MarkAsReady(id, video.qualities, normalized, saved);
    }

    /** Whether a delivery that has to transcode gets as far as running ffmpeg. */
    ghost predicate CanStage(id: VideoId, raw: string, faults: Faults)
      reads this
    {
      Raw in disk || (faults.openOk && KeyOf(id, raw, Raw) in store && faults.copyOk)
    }

    /** `made` is what ffmpeg leaves on disk, if the execution gets as far as running it. */
    method StageAndTranscode(id: VideoId, raw: string, source: Source, o: Outcomes, made: Disk, faults: Faults)
      returns (r: Result<(), TaskError>)
      requires id in service.videos.rows
      modifies this`disk, service.videos
      ensures !old(CanStage(id, raw, faults)) ==>
        && r == Err(StageFailed) && service.videos.rows == old(service.videos.rows)
        && disk == Unstaged(old(disk), store, KeyOf(id, raw, Raw), faults)
      ensures old(CanStage(id, raw, faults)) ==>
        && disk == Written(Staged(old(disk), store, KeyOf(id, raw, Raw)), made, o, old(service.videos.rows)[id])
        && OnlyRow(id, old(service.videos.rows), service.videos.rows)
        && Processed(id, source, o, old(service.videos.rows)[id], service.videos.rows[id])
        && r == if Answer(source, o, old(service.videos.rows)[id]).Ok? then Ok(()) else Err(ProcessFailed)
    {
      var staged := StageRawFile(KeyOf(id, raw, Raw), faults);
      if !staged {
        return Err(StageFailed);
      }
      if RunsFFmpeg(o, service.videos.rows[id]) {
        disk := disk + (made - {Raw});
      }
      var processed, master := service.ProcessVideo(id, source, o);
      r := if processed.Ok? then Ok(()) else Err(ProcessFailed);
    }

    method Deliver(id: VideoId, raw: string, toSlash: string -> string, faults: Faults) returns (r: Result<(), TaskError>)
      requires id in service.videos.rows
      requires service.videos != this as object
      modifies this, service.videos
      ensures service.videos.rows ==
        old(service.videos.rows)[id := Normalized(old(service.videos.rows)[id], toSlash, faults.pathSaved)]
      ensures r == if forall f :: f in Outputs(old(disk)) ==> faults.uploads(f) then Ok(()) else Err(UploadFailed)
      ensures disk == if r.Ok? then CleanedUp(old(disk), faults) else old(disk)
      ensures OnlyUploads(id, raw, old(disk), old(store), store) && SameUnder("raw/" + raw, old(store), store)
      ensures r.Ok? ==> AllUploaded(id, raw, old(disk), old(store), store)
    {
      NormalizeThumbnailPath(id, toSlash, faults.pathSaved);
      var ok := SyncOutputsToStore(id, raw, faults);
      r := if ok then Ok(()) else Err(UploadFailed);
    }

    /** The disk a delivery works from once any staging and transcoding is behind it. */
    ghost function Working(id: VideoId, raw: string, o: Outcomes, made: Disk, faults: Faults): Disk
      requires id in service.videos.rows
      reads this, service.videos
    {
      if service.videos.rows[id].status == Ready then disk
      else if CanStage(id, raw, faults) then Written(Staged(disk, store, KeyOf(id, raw, Raw)), made, o, service.videos.rows[id])
      else Unstaged(disk, store, KeyOf(id, raw, Raw), faults)
    }

    /** How a delivery of a job whose row could be loaded ends. */
    ghost function Outcome(id: VideoId, raw: string, source: Source, o: Outcomes, made: Disk, faults: Faults): Result<(), TaskError>
      requires id in service.videos.rows
      reads this, service.videos
    {
      var v := service.videos.rows[id];
      if v.status != Ready && !CanStage(id, raw, faults) then Err(StageFailed)
      else if v.status != Ready && Answer(source, o, v).Err? then Err(ProcessFailed)
      else if exists f :: f in Outputs(Working(id, raw, o, made, faults)) && !faults.uploads(f) then Err(UploadFailed)
      else Ok(())
    }

    /** The delivery of a video not ready yet. */
    method TranscodeAndDeliver(
      id: VideoId, raw: string, source: Source, o: Outcomes, made: Disk, toSlash: string -> string, faults: Faults)
      returns (r: Result<(), TaskError>)
      requires service.videos != this as object
      requires id in service.videos.rows && service.videos.rows[id].status != Ready
      modifies this, service.videos
      ensures r == old(Outcome(id, raw, source, o, made, faults))
      ensures OnlyRow(id, old(service.videos.rows), service.videos.rows)
      ensures r == Err(StageFailed) ==> service.videos.rows == old(service.videos.rows)
      ensures r == Err(ProcessFailed) ==> Processed(id, source, o, old(service.videos.rows)[id], service.videos.rows[id])
      ensures r == Ok(()) || r == Err(UploadFailed) ==>
        Finished(id, source, o, toSlash, faults, old(service.videos.rows)[id], service.videos.rows[id])
      ensures r.Ok? ==> RunsFFmpeg(o, old(service.videos.rows)[id]) && service.videos.rows[id].status == Ready
      ensures var working := old(Working(id, raw, o, made, faults));
              && OnlyUploads(id, raw, working, old(store), store) && SameUnder("raw/" + raw, old(store), store)
              && (r.Ok? ==> AllUploaded(id, raw, working, old(store), store))
              && disk == if r.Ok? then CleanedUp(working, faults) else working
    {
      ghost var v := service.videos.rows[id];
      ghost var working := Working(id, raw, o, made, faults);
      r := StageAndTranscode(id, raw, source, o, made, faults);
      assert disk == working;
      if r.Err? {
        return;
      }
      ghost var ready := service.videos.rows[id];
      GoodAnswerMeansReady(id, source, o, v, ready);
      r := Deliver(id, raw, toSlash, faults);
      FinishedFrom(id, source, o, toSlash, faults, v, ready);
    }

    /**
     One delivery of the job. On success every output is where readers look; on failure
     every output is still on disk; a row that was ready is not transcoded again.
     */
    method ProcessTask(id: VideoId, raw: string, source: Source, o: Outcomes, made: Disk, toSlash: string -> string, faults: Faults)
      returns (r: Result<(), TaskError>)
      requires service.videos != this as object
      modifies this, service.videos
      ensures id !in old(service.videos.rows) || !faults.loadOk ==>
        r == Err(LoadFailed) && disk == old(disk) && store == old(store) && service.videos.rows == old(service.videos.rows)
      ensures id in old(service.videos.rows) && faults.loadOk ==>
        var working := old(Working(id, raw, o, made, faults));
        && r == old(Outcome(id, raw, source, o, made, faults))
        && OnlyUploads(id, raw, working, old(store), store)
        && (r.Ok? ==> AllUploaded(id, raw, working, old(store), store) && Published(id, working, store))
        && disk == if r.Ok? then CleanedUp(working, faults) else working
      ensures id in old(service.videos.rows) && faults.loadOk && old(service.videos.rows)[id].status == Ready ==>
        service.videos.rows == old(service.videos.rows)[id := Normalized(old(service.videos.rows)[id], toSlash, faults.pathSaved)]
      ensures id in old(service.videos.rows) && faults.loadOk && old(service.videos.rows)[id].status != Ready ==>
        && OnlyRow(id, old(service.videos.rows), service.videos.rows)
        && (r == Err(StageFailed) ==> service.videos.rows == old(service.videos.rows))
        && (r == Err(ProcessFailed) ==> Processed(id, source, o, old(service.videos.rows)[id], service.videos.rows[id]))
        && (r == Ok(()) || r == Err(UploadFailed) ==>
             Finished(id, source, o, toSlash, faults, old(service.videos.rows)[id], service.videos.rows[id]))
        && (r.Ok? ==> MadeAndPublished(id, made, store))
      ensures r.Ok? ==> id in service.videos.rows && service.videos.rows[id].status == Ready
      ensures SameUnder("raw/" + raw, old(store), store)
    {
      if id !in service.videos.rows || !faults.loadOk {
        return Err(LoadFailed);
      }
      if service.videos.rows[id].status != Ready {
        r := TranscodeAndDeliver(id, raw, source, o, made, toSlash, faults);
      } else {
        r := Deliver(id, raw, toSlash, faults);
      }
      if r.Ok? {
        ghost var working := old(Working(id, raw, o, made, faults));
        UploadsArePublished(id, raw, working, old(store), store);
        if old(service.videos.rows)[id].status != Ready {
          WrittenIsPublished(id, old(Staged(disk, store, KeyOf(id, raw, Raw))), made, o, old(service.videos.rows)[id], store);
        }
      }
    }
  }
}
