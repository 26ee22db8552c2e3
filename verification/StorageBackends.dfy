/** The file-system store and the object store, and what a caller can tell apart. */
module StorageBackends {
  import opened Basics
  import opened Paths
  import opened Storage

  type Files = map<Path, string>
  type Objects = map<(string, string), string>

  function Without(files: Files, dir: Path): Files {
    map p | p in files && !Below(p, dir) :: files[p]
  }

  function WithoutPrefix(objects: Objects, bucket: string, prefix: string): Objects {
    map o | o in objects && !(o.0 == bucket && prefix <= o.1) :: objects[o]
  }

  /**
   How a save can go wrong: the file cannot be created, the copy ends after `copied`
   characters, what is there then cannot be removed.
   */
  datatype Writing = Writing(createOk: bool, copyOk: bool, copied: nat, removed: bool)

  /** What reaches the file. */
  function Arrived(content: string, w: Writing): string {
    if w.copyOk then content else content[..Min(w.copied, |content|)]
  }

  /** What Save leaves, and answers: creating the file truncates it, and a failed or short copy removes it if it can. */
  function Saved(l: Layout, files: Files, key: string, content: string, size: int, w: Writing)
    : (Files, Result<(), StorageError>)
  {
    var path := Resolve(l, key);
    if path.Err? then (files, Err(path.error))
    else if !w.createOk then (files, Err(IOError))
    else if w.copyOk && (size < 0 || |content| == size) then (files[path.value := content], Ok(()))
    else (if w.removed then files - {path.value} else files[path.value := Arrived(content, w)], Err(IOError))
  }

  class Local {
    const layout: Layout
    var files: Files

    constructor (layout: Layout)
      ensures this.layout == layout && files == map[]
    {
      this.layout, files := layout, map[];
    }

    method Save(key: string, content: string, size: int, w: Writing) returns (r: Result<(), StorageError>)
      modifies this
      ensures (files, r) == Saved(layout, old(files), key, content, size, w)
    {
      var path := Resolve(layout, key);
      if path.Err? {
        return Err(path.error);
      }
      if !w.createOk {
        return Err(IOError);
      }
      files := files[path.value := Arrived(content, w)];
      if !w.copyOk || (size >= 0 && |content| != size) {
        if w.removed {
          files := files - {path.value};
          assert files == old(files) - {path.value};
        }
        return Err(IOError);
      }
      r := Ok(());
    }

    /** A file already gone is no error. */
    method Delete(key: string, removable: Path -> bool) returns (r: Result<(), StorageError>)
      modifies this
      ensures r.Ok? <==> ValidKey(key) && (Resolve(layout, key).value in old(files) ==> removable(Resolve(layout, key).value))
      ensures files == if r.Ok? then old(files) - {Resolve(layout, key).value} else old(files)
    {
      var path := Resolve(layout, key);
      if path.Err? {
        return Err(path.error);
      }
      if path.value in files && !removable(path.value) {
        return Err(IOError);
      }
      files := files - {path.value};
      r := Ok(());
    }

    /** Removes what can be removed below the prefix, and succeeds exactly when that is everything. */
    method DeletePrefix(prefix: string, removable: Path -> bool) returns (r: Result<(), StorageError>)
      modifies this
      ensures !ValidKey(prefix) ==> r == Err(KeyInvalid) && files == old(files)
      ensures ValidKey(prefix) ==>
        var dir := Resolve(layout, prefix).value;
        && files == (map p | p in old(files) && !(Below(p, dir) && removable(p)) :: old(files)[p])
        && (r.Ok? <==> files == Without(old(files), dir))
    {
      var path := Resolve(layout, prefix);
      if path.Err? {
        return Err(path.error);
      }
      var dir := path.value;
      var left := map p | p in files && !(Below(p, dir) && removable(p)) :: files[p];
      var stuck := set p | p in left && Below(p, dir);
      if stuck == {} {
        assert forall p :: p in left ==> p !in stuck;
        r := Ok(());
      } else {
        var p :| p in stuck;
        r := Err(IOError);
      }
      files := left;
    }
  }

  function Under(objects: Objects, bucket: string, prefix: string): set<(string, string)> {
    set o | o in objects && o.0 == bucket && prefix <= o.1
  }

  class MinIO {
    const buckets: map<string, string>
    var objects: Objects

    constructor (buckets: map<string, string>)
      ensures this.buckets == buckets && objects == map[]
    {
      this.buckets, objects := buckets, map[];
    }

    method Save(key: string, content: string, putOk: bool) returns (r: Result<(), StorageError>)
      modifies this
      ensures (objects, r) == Put(buckets, old(objects), key, content, putOk)
    {
      var place := Locate(buckets, key);
      if place.Err? {
        return Err(place.error);
      }
      if !putOk {
        return Err(IOError);
      }
      objects := objects[place.value := content];
      r := Ok(());
    }

    method Delete(key: string, removeOk: bool) returns (r: Result<(), StorageError>)
      modifies this
      ensures r.Ok? <==> Locate(buckets, key).Ok? && removeOk
      ensures objects == if r.Ok? then old(objects) - {Locate(buckets, key).value} else old(objects)
    {
      var place := Locate(buckets, key);
      if place.Err? {
        return Err(place.error);
      }
      if !removeOk {
        return Err(IOError);
      }
      objects := objects - {place.value};
      r := Ok(());
    }

    /**
     Removes one listed object at a time; the request that fails, if any, be it a
     removal or the rest of the listing, is number `failAt`. Nothing outside the
     prefix is ever touched, and success means nothing is left under it.
     */
    method DeletePrefix(prefix: string, failAt: int) returns (r: Result<(), StorageError>)
      modifies this
      ensures Locate(buckets, prefix).Err? ==> r == Err(KeyInvalid) && objects == old(objects)
      ensures Locate(buckets, prefix).Ok? ==>
        var (bucket, name) := Locate(buckets, prefix).value;
        && (r.Ok? <==> failAt < 0 || |Under(old(objects), bucket, WithSlash(name))| < failAt)
        && (r.Ok? ==> objects == WithoutPrefix(old(objects), bucket, WithSlash(name)))
        && (r.Err? ==> |Under(objects, bucket, WithSlash(name))| == |Under(old(objects), bucket, WithSlash(name))| - failAt)
        && (forall o :: o in objects ==> o in old(objects) && objects[o] == old(objects)[o])
        && (forall o :: o in old(objects) && !(o.0 == bucket && WithSlash(name) <= o.1) ==> o in objects)
    {
      var place := Locate(buckets, prefix);
      if place.Err? {
        return Err(place.error);
      }
      var (bucket, name) := place.value;
      var listed := Under(objects, bucket, WithSlash(name));
      var requests := 0;
      while listed != {}
        invariant forall o :: o in objects ==> o in old(objects) && objects[o] == old(objects)[o]
        invariant forall o :: o in listed ==> o in objects && o.0 == bucket && WithSlash(name) <= o.1
        invariant forall o :: o in old(objects) && !(o.0 == bucket && WithSlash(name) <= o.1) ==> o in objects
        invariant listed == Under(objects, bucket, WithSlash(name))
        invariant requests + |listed| == |Under(old(objects), bucket, WithSlash(name))|
        invariant failAt < 0 || requests <= failAt
        decreases |listed|
      {
        if requests == failAt {
          return Err(IOError);
        }
        var o :| o in listed;
        objects := objects - {o};
        listed := listed - {o};
        requests := requests + 1;
      }
      if requests == failAt {
        return Err(IOError);
      }
      assert forall o :: o in objects && o.0 == bucket && WithSlash(name) <= o.1 ==> o in Under(objects, bucket, WithSlash(name));
      r := Ok(());
    }
  }

  // ---- Callers cannot tell the backends apart ----

  /** What opening a key yields. */
  function FileAt(l: Layout, files: Files, key: string): Option<string> {
    var place := Resolve(l, key);
    if place.Ok? && place.value in files then Some(files[place.value]) else None
  }

  function ObjectAt(buckets: map<string, string>, objects: Objects, key: string): Option<string> {
    var place := Locate(buckets, key);
    if place.Ok? && place.value in objects then Some(objects[place.value]) else None
  }

  /** Under every clean key the two stores hold the same thing. */
  ghost predicate Mirrored(l: Layout, buckets: map<string, string>, files: Files, objects: Objects) {
    forall key :: Addressable(buckets, key) ==>
      FileAt(l, files, key) == ObjectAt(buckets, objects, key)
  }

  ghost predicate Separate(l: Layout, buckets: map<string, string>) {
    l.Configured() && AreasDisjoint(l, buckets.Keys) && BucketsDisjoint(buckets)
  }

  lemma PlacesExist(l: Layout, buckets: map<string, string>, key: string)
    requires l.Configured() && Addressable(buckets, key)
    ensures Resolve(l, key).Ok? && Locate(buckets, key).Ok?
  {
    KeysAreConfined(l, key);
    AddressableParts(buckets, key);
  }

  /** A save that never got to create the file; or removed it again, where there was nothing; or left just what was there. */
  predicate HarmlessFailure(l: Layout, files: Files, key: string, content: string, w: Writing) {
    || !ValidKey(key) || !w.createOk
    || FileAt(l, files, key) == if w.removed then None else Some(Arrived(content, w))
  }

  /** A save that fails keeps what the key held exactly when it is one of these. */
  lemma FailedSaveKeepsContentExactlyWhen(l: Layout, files: Files, key: string, content: string, size: int, w: Writing)
    requires Saved(l, files, key, content, size, w).1.Err?
    ensures FileAt(l, Saved(l, files, key, content, size, w).0, key) == FileAt(l, files, key)
       <==> HarmlessFailure(l, files, key, content, w)
  {
  }

  /** And only then are the two stores still alike: the object store changes nothing when a save fails. */
  lemma FailedSaveKeepsThemAlikeExactlyWhen(
    l: Layout, buckets: map<string, string>, files: Files, objects: Objects, key: string, content: string, size: int, w: Writing)
    requires Separate(l, buckets) && Addressable(buckets, key) && Mirrored(l, buckets, files, objects)
    requires Saved(l, files, key, content, size, w).1.Err?
    ensures Mirrored(l, buckets, Saved(l, files, key, content, size, w).0, objects)
       <==> HarmlessFailure(l, files, key, content, w)
  {
    PlacesExist(l, buckets, key);
    var files' := Saved(l, files, key, content, size, w).0;
    FailedSaveKeepsContentExactlyWhen(l, files, key, content, size, w);
    forall k | Addressable(buckets, k) && k != key
      ensures FileAt(l, files', k) == ObjectAt(buckets, objects, k)
    {
      PlacesExist(l, buckets, k);
      CleanKeysHaveTheirOwnPlace(l, buckets, key, k);
    }
    assert FileAt(l, files, key) == ObjectAt(buckets, objects, key);
  }

  /** What the object store holds and answers after a save. */
  function Put(buckets: map<string, string>, objects: Objects, key: string, content: string, putOk: bool)
    : (Objects, Result<(), StorageError>)
  {
    var place := Locate(buckets, key);
    if place.Err? then (objects, Err(place.error))
    else if putOk then (objects[place.value := content], Ok(()))
    else (objects, Err(IOError))
  }

  /**
   A save succeeds exactly when the key is valid, the file could be created, and all of the content
   arrived and has the size announced, if one is. Opening the key then yields just that content.
   */
  lemma SaveSucceedsExactlyWhen(l: Layout, files: Files, key: string, content: string, size: int, w: Writing)
    ensures var (files', r) := Saved(l, files, key, content, size, w);
            && (r.Ok? <==> ValidKey(key) && w.createOk && w.copyOk && (size < 0 || size == |content|))
            && (r.Ok? ==> FileAt(l, files', key) == Some(content))
            && (r == Err(KeyInvalid) <==> !ValidKey(key))
  {
  }

  /** Whether it succeeds or fails, every other clean key reads as before. */
  lemma SavingSparesOtherKeys(
    l: Layout, buckets: map<string, string>, files: Files, key: string, content: string, size: int, w: Writing, other: string)
    requires Separate(l, buckets) && Addressable(buckets, key) && Addressable(buckets, other) && other != key
    ensures FileAt(l, Saved(l, files, key, content, size, w).0, other) == FileAt(l, files, other)
  {
    PlacesExist(l, buckets, key);
    PlacesExist(l, buckets, other);
    CleanKeysHaveTheirOwnPlace(l, buckets, key, other);
  }

  /** The same of the object store, where a failure changes nothing at all. */
  lemma PutSucceedsExactlyWhen(
    l: Layout, buckets: map<string, string>, objects: Objects, key: string, content: string, putOk: bool, other: string)
    requires Separate(l, buckets) && Addressable(buckets, key) && Addressable(buckets, other)
    ensures var (objects', r) := Put(buckets, objects, key, content, putOk);
            && (r.Ok? <==> putOk)
            && (r.Ok? ==> ObjectAt(buckets, objects', key) == Some(content))
            && (r.Err? ==> objects' == objects)
            && (other != key ==> ObjectAt(buckets, objects', other) == ObjectAt(buckets, objects, other))
  {
    PlacesExist(l, buckets, key);
    PlacesExist(l, buckets, other);
    CleanKeysHaveTheirOwnPlace(l, buckets, key, other);
  }

  /** What the two stores hold under a key after the same save to both: alike exactly if both go through, or the disk loses nothing. */
  lemma SavingKeepsThemAlikeExactlyWhen(
    l: Layout, buckets: map<string, string>, files: Files, objects: Objects, key: string, content: string, size: int, w: Writing,
    putOk: bool)
    requires Separate(l, buckets) && Addressable(buckets, key) && Mirrored(l, buckets, files, objects)
    requires Saved(l, files, key, content, size, w).1.Ok? <==> Put(buckets, objects, key, content, putOk).1.Ok?
    ensures Mirrored(l, buckets, Saved(l, files, key, content, size, w).0, Put(buckets, objects, key, content, putOk).0)
       <==> Saved(l, files, key, content, size, w).1.Ok? || HarmlessFailure(l, files, key, content, w)
  {
    var (files', saved) := Saved(l, files, key, content, size, w);
    var (objects', put) := Put(buckets, objects, key, content, putOk);
    PutSucceedsExactlyWhen(l, buckets, objects, key, content, putOk, key);
    if saved.Ok? {
      forall k | Addressable(buckets, k) ensures FileAt(l, files', k) == ObjectAt(buckets, objects', k) {
        SaveSucceedsExactlyWhen(l, files, key, content, size, w);
        PutSucceedsExactlyWhen(l, buckets, objects, key, content, putOk, k);
        if k != key {
          SavingSparesOtherKeys(l, buckets, files, key, content, size, w, k);
        }
      }
    } else {
      FailedSaveKeepsThemAlikeExactlyWhen(l, buckets, files, objects, key, content, size, w);
    }
  }

  lemma DeletingKeepsThemAlike(l: Layout, buckets: map<string, string>, files: Files, objects: Objects, key: string)
    requires Separate(l, buckets) && Addressable(buckets, key) && Mirrored(l, buckets, files, objects)
    ensures Resolve(l, key).Ok? && Locate(buckets, key).Ok?
    ensures Mirrored(l, buckets, files - {Resolve(l, key).value}, objects - {Locate(buckets, key).value})
  {
    PlacesExist(l, buckets, key);
    var files', objects' := files - {Resolve(l, key).value}, objects - {Locate(buckets, key).value};
    forall k | Addressable(buckets, k)
      ensures FileAt(l, files', k) == ObjectAt(buckets, objects', k)
    {
      PlacesExist(l, buckets, k);
      CleanKeysHaveTheirOwnPlace(l, buckets, key, k);
    }
  }

  /** Deleting a prefix keeps the stores alike exactly when no object is named by the prefix itself. */
  lemma PrefixDeletionKeepsThemAlikeWhen(l: Layout, buckets: map<string, string>, files: Files, objects: Objects, prefix: string)
    requires Separate(l, buckets) && Addressable(buckets, prefix) && Mirrored(l, buckets, files, objects)
    ensures Resolve(l, prefix).Ok? && Locate(buckets, prefix).Ok?
    ensures var (bucket, name) := Locate(buckets, prefix).value;
            Mirrored(l, buckets, Without(files, Resolve(l, prefix).value), WithoutPrefix(objects, bucket, WithSlash(name)))
            <==> (bucket, name) !in objects
  {
    PlacesExist(l, buckets, prefix);
    var (bucket, name) := Locate(buckets, prefix).value;
    var files', objects' := Without(files, Resolve(l, prefix).value), WithoutPrefix(objects, bucket, WithSlash(name));
    forall k | Addressable(buckets, k)
      ensures FileAt(l, files', k) == (if LocalRemoves(l, prefix, k) then None else FileAt(l, files, k))
      ensures ObjectAt(buckets, objects', k) == (if MinIORemoves(buckets, prefix, k) then None else ObjectAt(buckets, objects, k))
      ensures LocalRemoves(l, prefix, k) <==> k == prefix || MinIORemoves(buckets, prefix, k)
    {
      PlacesExist(l, buckets, k);
      BackendsDeleteTheSameKeys(l, buckets, prefix, k);
    }
    BackendsDeleteTheSameKeys(l, buckets, prefix, prefix);
    assert FileAt(l, files', prefix) == None;
  }
}
