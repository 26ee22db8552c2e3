/** Storage keys and the two backends that give them a place. */
module Storage {
  import opened Basics
  import opened Paths

  datatype StorageError = KeyInvalid | IOError

  /** Refuses keys that could name something outside the store. */
  predicate ValidKey(key: string) {
    && key != "" && key[0] != '/' && '\\' !in key && ':' !in key
    && ".." !in Split(key)
  }

  /** Wherever it stands, a step up is refused; so are absolute keys, drive letters, backslashes and the empty key. */
  lemma EscapesAreRefused(a: string, b: string)
    ensures !ValidKey(a + "/../" + b) && !ValidKey("../" + b) && !ValidKey(a + "/..") && !ValidKey("..")
    ensures !ValidKey("/" + b) && !ValidKey("") && !ValidKey(a + "\\" + b) && !ValidKey(a + ":" + b)
  {
    CutSplits("..");
    SplitAppends(a, ".." + "/" + b);
    SplitAppends("..", b);
    SplitAppends(a, "..");
    assert a + "/../" + b == a + "/" + (".." + "/" + b) && "../" + b == ".." + "/" + b && a + "/.." == a + "/" + "..";
    assert (a + "\\" + b)[|a|] == '\\' && (a + ":" + b)[|a|] == ':';
  }

  /** A key built by Key, that is, one path.Clean leaves as it is. */
  predicate CleanKey(key: string) {
    ValidKey(key) && forall x :: x in Split(key) ==> x != "" && x != "."
  }

  /** Clean keys are exactly the valid ones that cleaning prints back unchanged. */
  lemma CleanKeysPrintBack(key: string)
    requires ValidKey(key)
    ensures CleanKey(key) <==> Clean(key).segments != [] && Join(Clean(key).segments) == key
  {
    PushAllWithoutDotDot(false, [], Split(key));
    assert [] + Kept(Split(key)) == Kept(Split(key));
    KeptIsClean(Split(key));
    SplitJoins(key);
    if Clean(key).segments != [] && Join(Clean(key).segments) == key {
      KeptHasNoSlash(Split(key), key);
      JoinSplits(Kept(Split(key)));
    }
  }

  lemma {:induction false} PiecesHaveNoSlash(s: string)
    ensures forall x :: x in Split(s) ==> '/' !in x
  {
    if s != "" {
      PiecesHaveNoSlash(s[1..]);
    }
  }

  lemma KeptHasNoSlash(segments: seq<string>, s: string)
    requires segments == Split(s)
    ensures forall x :: x in Kept(segments) ==> '/' !in x
  {
    PiecesHaveNoSlash(s);
    KeptIsClean(segments);
  }

  lemma {:induction false} JoinSplits(pieces: seq<string>)
    requires |pieces| >= 1 && forall x :: x in pieces ==> '/' !in x
    ensures Split(Join(pieces)) == pieces
  {
    CutSplits(pieces[0]);
    if |pieces| > 1 {
      JoinSplits(pieces[1..]);
      SplitAppends(pieces[0], Join(pieces[1..]));
    } else {
      assert pieces == [pieces[0]];
    }
  }

  // ---- Places ----

  /** `mounts` redirects some areas away from the root. */
  datatype Layout = Layout(root: string, mounts: map<string, string>) {
    predicate Configured() {
      root != "" && forall area :: area in mounts ==> mounts[area] != ""
    }
  }

  function Resolve(l: Layout, key: string): Result<Path, StorageError> {
    if !ValidKey(key) then Err(KeyInvalid)
    else if Area(key) in l.mounts then Ok(JoinPaths(l.mounts[Area(key)], Rest(key)))
    else Ok(JoinPaths(l.root, key))
  }

  function Locate(buckets: map<string, string>, key: string): Result<(string, string), StorageError> {
    if !ValidKey(key) || Area(key) !in buckets || Rest(key) == "" then Err(KeyInvalid)
    else Ok((buckets[Area(key)], Rest(key)))
  }

  /** A key goes below the directory its area is mounted on, or below the root whole, and into its area's bucket under what follows the area. */
  lemma PlacesOfKeys(l: Layout, buckets: map<string, string>, area: string, rest: string)
    requires l.Configured() && '/' !in area && ValidKey(area + "/" + rest)
    ensures Resolve(l, area + "/" + rest).Ok?
    ensures Resolve(l, area + "/" + rest).value.segments ==
      if area in l.mounts then Clean(l.mounts[area]).segments + Kept(Split(rest))
      else Clean(l.root).segments + Kept(Split(area + "/" + rest))
    ensures Locate(buckets, area + "/" + rest) ==
      if area in buckets && rest != "" then Ok((buckets[area], rest)) else Err(KeyInvalid)
  {
    CutAtFirstSlash(area, rest);
    PlacesOfCutKeys(l, area + "/" + rest);
  }

  lemma PlacesOfCutKeys(l: Layout, key: string)
    requires l.Configured() && ValidKey(key) && '/' in key
    ensures Resolve(l, key).Ok?
    ensures Resolve(l, key).value.segments ==
      if Area(key) in l.mounts then Clean(l.mounts[Area(key)]).segments + Kept(Split(Rest(key)))
      else Clean(l.root).segments + Kept(Split(key))
  {
    NamesAreTame(key);
    if Area(key) in l.mounts {
      JoinExtends(l.mounts[Area(key)], Rest(key));
    } else {
      JoinExtends(l.root, key);
    }
  }

  lemma {:induction false} CutAtFirstSlash(area: string, rest: string)
    requires '/' !in area
    ensures Area(area + "/" + rest) == area && Rest(area + "/" + rest) == rest
  {
    var s := area + "/" + rest;
    if area == "" {
      assert s[0] == '/' && s[1..] == rest;
    } else {
      CutAtFirstSlash(area[1..], rest);
      assert s[1..] == area[1..] + "/" + rest;
    }
  }

  /** The directory an area's files live under. */
  function Base(l: Layout, area: string): Path {
    if area in l.mounts then Clean(l.mounts[area])
    else Path(Clean(l.root).rooted, Clean(l.root).segments + Kept([area]))
  }

  predicate Below(p: Path, base: Path) {
    p.rooted == base.rooted && base.segments <= p.segments
  }

  /** The names a key spells out below its area. */
  function Names(key: string): seq<string> {
    if '/' in key then Kept(Split(Rest(key))) else []
  }

  lemma NamesAreTame(key: string)
    requires ValidKey(key)
    ensures ".." !in Names(key) && ".." !in Split(Rest(key))
    ensures Kept(Split(key)) == Kept([Area(key)]) + Names(key)
    ensures Kept(Split(Rest(key))) == Names(key)
  {
    CutSplits(key);
    KeptIsClean(Split(Rest(key)));
    assert Kept([""]) == [];
    if '/' in key {
      assert Split(key) == [Area(key)] + Split(Rest(key));
      assert forall x :: x in Split(Rest(key)) ==> x in [Area(key)] + Split(Rest(key));
      KeptPrepends(Area(key), Split(Rest(key)));
    } else {
      assert Split("") == [""];
    }
  }

  lemma KeptPrepends(first: string, rest: seq<string>)
    ensures Kept([first] + rest) == Kept([first]) + Kept(rest)
  {
    assert ([first] + rest)[1..] == rest && [first][1..] == [];
  }

  /** Every accepted key lands below its area's directory, at the names it spells out. */
  lemma KeysAreConfined(l: Layout, key: string)
    requires l.Configured() && ValidKey(key)
    ensures ".." !in Names(key)
    ensures Resolve(l, key) == Ok(Path(Base(l, Area(key)).rooted, Base(l, Area(key)).segments + Names(key)))
    ensures Below(Resolve(l, key).value, Base(l, Area(key)))
  {
    NamesAreTame(key);
    if Area(key) in l.mounts {
      JoinExtends(l.mounts[Area(key)], Rest(key));
    } else {
      JoinExtends(l.root, key);
      assert Clean(l.root).segments + (Kept([Area(key)]) + Names(key)) == Clean(l.root).segments + Kept([Area(key)]) + Names(key);
    }
  }

  // ---- Agreement ----

  /** No area's directory lies below another's. */
  ghost predicate AreasDisjoint(l: Layout, areas: set<string>) {
    forall a, b :: a in areas && b in areas && a != b ==> !Below(Base(l, a), Base(l, b))
  }

  ghost predicate BucketsDisjoint(buckets: map<string, string>) {
    forall a, b :: a in buckets && b in buckets && a != b ==> buckets[a] != buckets[b]
  }

  /**
   The default wiring, where every mounted area is the directory of its own name
   below the root, keeps the areas apart.
   */
  lemma MountsUnderTheRootAreDisjoint(l: Layout, areas: set<string>)
    requires l.root != "" && forall a :: a in l.mounts ==> l.mounts[a] == l.root + "/" + a
    requires forall a :: a in areas || a in l.mounts ==> '/' !in a && a != "" && a != "." && a != ".."
    ensures AreasDisjoint(l, areas)
  {
    forall a | a in areas
      ensures Base(l, a) == Path(Clean(l.root).rooted, Clean(l.root).segments + [a])
    {
      CutSplits(a);
      assert Kept([a]) == [a];
      if a in l.mounts {
        JoinExtends(l.root, a);
      }
    }
    forall a, b | a in areas && b in areas && a != b ensures !Below(Base(l, a), Base(l, b)) {
      assert Base(l, a).segments[|Clean(l.root).segments|] == a && Base(l, b).segments[|Clean(l.root).segments|] == b;
    }
  }

  /** A clean key both backends accept. */
  predicate Addressable(buckets: map<string, string>, key: string) {
    CleanKey(key) && Area(key) in buckets && '/' in key
  }

  lemma AddressableParts(buckets: map<string, string>, key: string)
    requires Addressable(buckets, key)
    ensures Split(key) == [Area(key)] + Split(Rest(key)) && Names(key) == Split(Rest(key))
    ensures key == Area(key) + "/" + Rest(key) && Rest(key) != ""
    ensures Locate(buckets, key) == Ok((buckets[Area(key)], Rest(key)))
  {
    CutSplits(key);
    assert forall x :: x in Split(Rest(key)) ==> x in Split(key);
    KeptIsClean(Split(Rest(key)));
    assert Split("") == [""];
  }

  lemma NestedBasesMeet(p: Path, a: Path, b: Path)
    requires Below(p, a) && Below(p, b)
    ensures Below(a, b) || Below(b, a)
  {
    if |a.segments| <= |b.segments| {
      assert a.segments == p.segments[..|a.segments|] == b.segments[..|a.segments|];
    } else {
      assert b.segments == p.segments[..|b.segments|] == a.segments[..|b.segments|];
    }
  }

  lemma PathsBelowOneArea(l: Layout, buckets: map<string, string>, key: string, key': string)
    requires l.Configured() && AreasDisjoint(l, buckets.Keys)
    requires Addressable(buckets, key) && Addressable(buckets, key')
    ensures Below(Resolve(l, key).value, Resolve(l, key').value)
        <==> Area(key) == Area(key') && Split(Rest(key')) <= Split(Rest(key))
  {
    KeysAreConfined(l, key);
    KeysAreConfined(l, key');
    AddressableParts(buckets, key);
    AddressableParts(buckets, key');
    var base, base' := Base(l, Area(key)), Base(l, Area(key'));
    if Below(Resolve(l, key).value, Resolve(l, key').value) {
      assert base'.segments <= Resolve(l, key').value.segments <= Resolve(l, key).value.segments;
      NestedBasesMeet(Resolve(l, key).value, base, base');
      assert Area(key) == Area(key');
      SamePrefix(base.segments, Split(Rest(key')), Split(Rest(key)));
    } else if Area(key) == Area(key') {
      SamePrefix(base.segments, Split(Rest(key')), Split(Rest(key)));
    }
  }

  lemma SamePrefix(base: seq<string>, a: seq<string>, b: seq<string>)
    ensures base + a <= base + b <==> a <= b
  {
    if base + a <= base + b {
      assert forall i :: 0 <= i < |a| ==> a[i] == (base + a)[|base| + i] == (base + b)[|base| + i];
    }
  }

  /** Both backends keep distinct clean keys in distinct places. */
  lemma CleanKeysHaveTheirOwnPlace(l: Layout, buckets: map<string, string>, key: string, key': string)
    requires l.Configured() && AreasDisjoint(l, buckets.Keys) && BucketsDisjoint(buckets)
    requires Addressable(buckets, key) && Addressable(buckets, key')
    ensures Resolve(l, key) == Resolve(l, key') <==> key == key'
    ensures Locate(buckets, key) == Locate(buckets, key') <==> key == key'
  {
    AddressableParts(buckets, key);
    AddressableParts(buckets, key');
    PathsBelowOneArea(l, buckets, key, key');
    PathsBelowOneArea(l, buckets, key', key);
    SplitInjective(Rest(key), Rest(key'));
    KeysAreConfined(l, key);
    KeysAreConfined(l, key');
  }

  /** Keys that are not clean are told apart by the object store but not by the file system. */
  lemma UncleanKeysCollideLocally(l: Layout, buckets: map<string, string>, key: string, key': string)
    requires l.Configured() && ValidKey(key) && ValidKey(key')
    requires Area(key) == Area(key') && Area(key) in buckets && Rest(key) != "" && Rest(key') != ""
    ensures Resolve(l, key) == Resolve(l, key') <==> Names(key) == Names(key')
    ensures Locate(buckets, key) == Locate(buckets, key') <==> key == key'
  {
    CutSplits(key);
    CutSplits(key');
    KeysAreConfined(l, key);
    KeysAreConfined(l, key');
    var base := Base(l, Area(key)).segments;
    SamePrefix(base, Names(key), Names(key'));
    SamePrefix(base, Names(key'), Names(key));
  }

  // ---- Deleting a prefix ----

  /** RemoveAll takes the path itself and everything below it. */
  predicate LocalRemoves(l: Layout, prefix: string, key: string) {
    Resolve(l, prefix).Ok? && Resolve(l, key).Ok? && Below(Resolve(l, key).value, Resolve(l, prefix).value)
  }

  function WithSlash(name: string): string {
    if name != "" && name[|name| - 1] == '/' then name else name + "/"
  }

  /** The listing is by object name, after a closing slash is put on the prefix. */
  predicate MinIORemoves(buckets: map<string, string>, prefix: string, key: string) {
    var p, k := Locate(buckets, prefix), Locate(buckets, key);
    p.Ok? && k.Ok? && p.value.0 == k.value.0 && WithSlash(p.value.1) <= k.value.1
  }

  lemma CleanNamesEndInNoSlash(buckets: map<string, string>, key: string)
    requires Addressable(buckets, key)
    ensures WithSlash(Rest(key)) == Rest(key) + "/"
  {
    AddressableParts(buckets, key);
    var name := Rest(key);
    if name[|name| - 1] == '/' {
      var init := name[..|name| - 1];
      assert name == init + "/" + "";
      SplitAppends(init, "");
      assert "" in Split(name);
      assert "" in Split(key);
    }
  }

  /** The backends delete the same keys, save one: the object store leaves an object named exactly by the prefix. */
  lemma BackendsDeleteTheSameKeys(l: Layout, buckets: map<string, string>, prefix: string, key: string)
    requires l.Configured() && AreasDisjoint(l, buckets.Keys) && BucketsDisjoint(buckets)
    requires Addressable(buckets, prefix) && Addressable(buckets, key)
    ensures LocalRemoves(l, prefix, key) <==> key == prefix || MinIORemoves(buckets, prefix, key)
    ensures !MinIORemoves(buckets, prefix, prefix)
  {
    AddressableParts(buckets, prefix);
    AddressableParts(buckets, key);
    PathsBelowOneArea(l, buckets, key, prefix);
    CleanNamesEndInNoSlash(buckets, prefix);
    PrefixWithSlash(Rest(prefix), Rest(key));
    SplitInjective(Rest(prefix), Rest(key));
    KeysAreConfined(l, key);
    KeysAreConfined(l, prefix);
    if Split(Rest(prefix)) <= Split(Rest(key)) && !(Split(Rest(prefix)) < Split(Rest(key))) {
      assert |Split(Rest(prefix))| == |Split(Rest(key))|;
      assert Split(Rest(prefix)) == Split(Rest(key));
    }
  }

  lemma NoSlashIsOnePiece(s: string)
    requires '/' !in s
    ensures Split(s) == [s]
  {
    CutSplits(s);
  }

  lemma FileKeyParts(area: string, id: string, file: string)
    requires '/' !in area && '/' !in id
    ensures Split(area + "/" + id) == [area, id]
    ensures Split(area + "/" + id + "/" + file) == [area, id] + Split(file)
  {
    SplitAppends(area, id);
    SplitAppends(area + "/" + id, file);
    NoSlashIsOnePiece(area);
    NoSlashIsOnePiece(id);
  }

  /**
   In any area, deleting one video's directory takes another video's file along
   only if it is the same video, however the IDs begin.
   */
  lemma DeletingOneVideoSparesOthers(l: Layout, buckets: map<string, string>, area: string, id: string, id': string, file: string)
    requires l.Configured() && AreasDisjoint(l, buckets.Keys) && BucketsDisjoint(buckets)
    requires '/' !in area && '/' !in id && '/' !in id'
    requires Addressable(buckets, area + "/" + id) && Addressable(buckets, area + "/" + id' + "/" + file)
    ensures LocalRemoves(l, area + "/" + id, area + "/" + id' + "/" + file) <==> id == id'
    ensures MinIORemoves(buckets, area + "/" + id, area + "/" + id' + "/" + file) <==> id == id'
  {
    var prefix, key := area + "/" + id, area + "/" + id' + "/" + file;
    FileKeyParts(area, id, "");
    FileKeyParts(area, id', file);
    AddressableParts(buckets, prefix);
    AddressableParts(buckets, key);
    assert Split(Rest(prefix)) == Split(prefix)[1..] == [id];
    assert Split(Rest(key)) == Split(key)[1..] == [id'] + Split(file);
    assert Area(prefix) == Split(prefix)[0] && Area(key) == Split(key)[0];
    BackendsDeleteTheSameKeys(l, buckets, prefix, key);
    DeletesByName(l, buckets, prefix, key);
  }

  /** Within one area, removal compares the names that follow the area. */
  lemma DeletesByName(l: Layout, buckets: map<string, string>, prefix: string, key: string)
    requires l.Configured() && AreasDisjoint(l, buckets.Keys) && BucketsDisjoint(buckets)
    requires Addressable(buckets, prefix) && Addressable(buckets, key)
    ensures LocalRemoves(l, prefix, key) <==> Area(key) == Area(prefix) && Split(Rest(prefix)) <= Split(Rest(key))
  {
    PathsBelowOneArea(l, buckets, key, prefix);
    KeysAreConfined(l, key);
    KeysAreConfined(l, prefix);
  }
}
