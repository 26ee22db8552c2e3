/** The HLS master playlist: one variant stream per quality (section 4.3.4.2 of RFC 8216). */
module MasterPlaylist {
  import opened Basics
  import opened Decimal
  import opened Sublists
  import opened VideoRecords

  function Name(q: Quality): string {
    match q
    case P360 => "360p"
    case P480 => "480p"
    case P720 => "720p"
    case P1080 => "1080p"
  }

  function Width(q: Quality): nat {
    match q
    case P360 => 640
    case P480 => 854
    case P720 => 1280
    case P1080 => 1920
  }

  function Height(q: Quality): nat {
    match q
    case P360 => 360
    case P480 => 480
    case P720 => 720
    case P1080 => 1080
  }

  function Bandwidth(q: Quality): nat {
    match q
    case P360 => 800000
    case P480 => 1400000
    case P720 => 2800000
    case P1080 => 5000000
  }

  /** What a player is told about one rendition, and where its media playlist is. */
  datatype Variant = Variant(attributes: string, uri: string)

  function Attributes(bandwidth: nat, width: nat, height: nat): string {
    "BANDWIDTH=" + Itoa(bandwidth) + ",RESOLUTION=" + Itoa(width) + "x" + Itoa(height)
  }

  function Stream(q: Quality): Variant {
    Variant(Attributes(Bandwidth(q), Width(q), Height(q)), Name(q) + "/playlist.m3u8")
  }

  function Streams(qs: seq<Quality>): seq<Variant> {
    seq(|qs|, k requires 0 <= k < |qs| => Stream(qs[k]))
  }

  const FORMAT_TAG := "#EXTM3U"
  const VERSION_TAG := "#EXT-X-VERSION:3"
  const STREAM_TAG := "#EXT-X-STREAM-INF:"

  /** Every line ends in a newline, the last one included. */
  function Text(lines: seq<string>): string {
    if lines == [] then "" else Text(lines[..|lines| - 1]) + lines[|lines| - 1] + "\n"
  }

  function VariantLines(vs: seq<Variant>): seq<string> {
    if vs == [] then []
    else VariantLines(vs[..|vs| - 1]) + [STREAM_TAG + vs[|vs| - 1].attributes, vs[|vs| - 1].uri]
  }

  function InfoLine(v: Variant): string {
    STREAM_TAG + v.attributes + "\n"
  }

  function Master(vs: seq<Variant>): seq<string> {
    [FORMAT_TAG, VERSION_TAG] + VariantLines(vs)
  }

  /** `present` says for which qualities the media playlist is on disk; the others are left out. */
  method GenerateMasterPlaylist(qualities: seq<Quality>, present: Quality -> bool, created: bool) returns (file: Option<string>)
    ensures file == if created then Some(Text(Master(Streams(Filtered(qualities, present))))) else None
  {
    if !created {
      return None;
    }
    var written := FORMAT_TAG + "\n";
    written := written + VERSION_TAG + "\n";
    HeaderText();
    ghost var listed := [];
    for i := 0 to |qualities|
      invariant listed == Filtered(qualities[..i], present)
      invariant written == Text(Master(Streams(listed)))
    {
      FilteredOnce(qualities, i, present);
      var quality := qualities[i];
      if !present(quality) {
        continue;
      }
      var stream := Stream(quality);
      VariantAppends(Streams(listed), stream);
      assert Streams(listed + [quality]) == Streams(listed) + [stream];
      written := written + InfoLine(stream);
      written := written + stream.uri + "\n";
      listed := listed + [quality];
    }
    assert qualities[..|qualities|] == qualities;
    file := Some(written);
  }

  lemma TextAppends(lines: seq<string>, line: string)
    ensures Text(lines + [line]) == Text(lines) + line + "\n"
  {
    assert (lines + [line])[..|lines|] == lines;
  }

  lemma HeaderText()
    ensures Text(Master(Streams([]))) == FORMAT_TAG + "\n" + VERSION_TAG + "\n"
  {
    TextAppends([], FORMAT_TAG);
    TextAppends([FORMAT_TAG], VERSION_TAG);
    assert Master(Streams([])) == [FORMAT_TAG] + [VERSION_TAG];
    assert Text([FORMAT_TAG]) == FORMAT_TAG + "\n" by {
      assert [] + [FORMAT_TAG] == [FORMAT_TAG] && Text([]) + FORMAT_TAG == FORMAT_TAG;
    }
  }

  lemma VariantAppends(vs: seq<Variant>, v: Variant)
    ensures Text(Master(vs + [v])) == Text(Master(vs)) + InfoLine(v) + v.uri + "\n"
  {
    assert (vs + [v])[..|vs|] == vs;
    assert Master(vs + [v]) == Master(vs) + [STREAM_TAG + v.attributes] + [v.uri];
    TextAppends(Master(vs), STREAM_TAG + v.attributes);
    TextAppends(Master(vs) + [STREAM_TAG + v.attributes], v.uri);
    assert Text(Master(vs)) + (STREAM_TAG + v.attributes) + "\n" == Text(Master(vs)) + InfoLine(v);
  }

  // ---- Reading a playlist back ----

  /** The lines of a text, each ended by a newline; `line` is what has been read of the current one. */
  function Lines(text: string, line: string): seq<string>
    decreases |text|
  {
    if text == "" then []
    else if text[0] == '\n' then [line] + Lines(text[1..], "")
    else Lines(text[1..], line + [text[0]])
  }

  /** A stream tag describes the stream named on the line after it. */
  function Variants(lines: seq<string>): seq<Variant> {
    if |lines| < 2 then []
    else if STREAM_TAG <= lines[0] then [Variant(lines[0][|STREAM_TAG|..], lines[1])] + Variants(lines[2..])
    else Variants(lines[1..])
  }

  lemma {:induction false} LineReadsBack(line: string, rest: string, held: string)
    requires '\n' !in line
    ensures Lines(line + "\n" + rest, held) == [held + line] + Lines(rest, "")
    decreases |line|
  {
    var text := line + "\n" + rest;
    if line == "" {
      assert text[1..] == rest && held + line == held;
    } else {
      assert text[0] == line[0] && text[1..] == line[1..] + "\n" + rest;
      LineReadsBack(line[1..], rest, held + [line[0]]);
      assert held + [line[0]] + line[1..] == held + line;
    }
  }

  lemma {:induction false} LinesReadBack(lines: seq<string>, rest: string)
    requires forall l :: l in lines ==> '\n' !in l
    ensures Lines(Text(lines) + rest, "") == lines + Lines(rest, "")
  {
    if lines == [] {
      assert Text(lines) + rest == rest;
    } else {
      var before, last := lines[..|lines| - 1], lines[|lines| - 1];
      assert lines == before + [last];
      LinesReadBack(before, last + "\n" + rest);
      assert Text(lines) + rest == Text(before) + (last + "\n" + rest);
      LineReadsBack(last, rest, "");
      assert "" + last == last;
    }
  }

  predicate OneLine(v: Variant) {
    '\n' !in v.attributes && '\n' !in v.uri
  }

  lemma TagsAreOneLine()
    ensures '\n' !in FORMAT_TAG && '\n' !in VERSION_TAG && '\n' !in STREAM_TAG
    ensures !(STREAM_TAG <= FORMAT_TAG) && !(STREAM_TAG <= VERSION_TAG)
  {
    assert VERSION_TAG[7] == 'V' && STREAM_TAG[7] == 'S';
  }

  lemma {:induction false} VariantLinesAreClean(vs: seq<Variant>)
    requires forall v :: v in vs ==> OneLine(v)
    ensures forall l :: l in VariantLines(vs) ==> '\n' !in l
  {
    if vs != [] {
      VariantLinesAreClean(vs[..|vs| - 1]);
      TagsAreOneLine();
      assert OneLine(vs[|vs| - 1]);
    }
  }

  lemma {:induction false} VariantLinesFromFront(vs: seq<Variant>)
    requires vs != []
    ensures VariantLines(vs) == [STREAM_TAG + vs[0].attributes, vs[0].uri] + VariantLines(vs[1..])
  {
    if |vs| > 1 {
      VariantLinesFromFront(vs[..|vs| - 1]);
      assert vs[1..][..|vs| - 2] == vs[..|vs| - 1][1..];
    }
  }

  lemma {:induction false} VariantsReadBack(vs: seq<Variant>)
    ensures Variants(VariantLines(vs)) == vs
  {
    if vs != [] {
      VariantLinesFromFront(vs);
      VariantsReadBack(vs[1..]);
      var lines := VariantLines(vs);
      assert lines[2..] == VariantLines(vs[1..]);
      assert STREAM_TAG <= lines[0] && lines[0][|STREAM_TAG|..] == vs[0].attributes;
      assert vs == [vs[0]] + vs[1..];
    }
  }

  lemma AttributesAreOneLine(bandwidth: nat, width: nat, height: nat)
    ensures '\n' !in Attributes(bandwidth, width, height)
  {
    DigitsAreDigits(bandwidth);
    DigitsAreDigits(width);
    DigitsAreDigits(height);
  }

  lemma StreamsAreOneLine(q: Quality)
    ensures OneLine(Stream(q))
  {
    AttributesAreOneLine(Bandwidth(q), Width(q), Height(q));
    UriIsOneLine(q);
  }

  lemma UriIsOneLine(q: Quality)
    ensures '\n' !in Name(q) + "/playlist.m3u8"
  {
    var file := "/playlist.m3u8";
    assert '\n' !in file;
    assert '\n' !in Name(q);
  }

  datatype Picture = Picture(bandwidth: nat, width: nat, height: nat)

  /** A label with a number behind it, and what follows them. */
  function Labelled(name: string, s: string): Option<(nat, string)> {
    if !(name <= s) then None
    else Some((Number(LeadingDigits(s[|name|..])), AfterDigits(s[|name|..])))
  }

  /** The two attributes; a resolution is a width and a height with an x between them (section 4.2 of RFC 8216). */
  function ReadAttributes(s: string): Option<Picture> {
    var bandwidth := Labelled("BANDWIDTH=", s);
    if bandwidth.None? then None
    else
      var width := Labelled(",RESOLUTION=", bandwidth.value.1);
      if width.None? then None
      else
        var height := Labelled("x", width.value.1);
        if height.None? then None else Some(Picture(bandwidth.value.0, width.value.0, height.value.0))
  }

  lemma LabelledReadsBack(name: string, n: nat, rest: string)
    requires rest == [] || !IsDigit(rest[0])
    ensures Labelled(name, name + (Itoa(n) + rest)) == Some((n, rest))
  {
    assert (name + (Itoa(n) + rest))[|name|..] == Itoa(n) + rest;
    PrintedNumberReadsBack(n, rest);
  }

  lemma Regrouped(a: string, b: string, c: string, d: string, e: string, f: string)
    ensures a + b + c + d + e + f == a + (b + (c + (d + (e + (f + "")))))
  {
  }

  /** The numbers a player reads from a stream tag are the ones written, each in its place. */
  lemma AttributesReadBack(bandwidth: nat, width: nat, height: nat)
    ensures ReadAttributes(Attributes(bandwidth, width, height)) == Some(Picture(bandwidth, width, height))
  {
    Regrouped("BANDWIDTH=", Itoa(bandwidth), ",RESOLUTION=", Itoa(width), "x", Itoa(height));
    var tail := "x" + (Itoa(height) + "");
    var middle := ",RESOLUTION=" + (Itoa(width) + tail);
    LabelledReadsBack("x", height, "");
    LabelledReadsBack(",RESOLUTION=", width, tail);
    LabelledReadsBack("BANDWIDTH=", bandwidth, middle);
  }

  /** What a player learns of each rung. */
  lemma PlayersLearnThePicture(q: Quality)
    ensures ReadAttributes(Stream(q).attributes) == Some(
      match q
      case P360 => Picture(800000, 640, 360)
      case P480 => Picture(1400000, 854, 480)
      case P720 => Picture(2800000, 1280, 720)
      case P1080 => Picture(5000000, 1920, 1080))
  {
    AttributesReadBack(Bandwidth(q), Width(q), Height(q));
  }

  /** Each rung's own playlist is in the directory its segments are written to. */
  lemma UrisNameTheRung(q: Quality)
    ensures Stream(q).uri == Name(q) + "/" + "playlist.m3u8"
    ensures Name(P360) == "360p" && Name(P480) == "480p" && Name(P720) == "720p" && Name(P1080) == "1080p"
  {
    assert "/" + "playlist.m3u8" == "/playlist.m3u8";
    assert Name(q) + ("/" + "playlist.m3u8") == Name(q) + "/" + "playlist.m3u8";
  }

  /** A player reading the file finds exactly the renditions written, in order, and nothing else. */
  lemma PlayersFindEveryQuality(qs: seq<Quality>)
    ensures Variants(Lines(Text(Master(Streams(qs))), "")) == Streams(qs)
    ensures FORMAT_TAG + "\n" <= Text(Master(Streams(qs)))
  {
    AllStreamsAreOneLine(qs);
    MasterReadsBack(Streams(qs));
    MasterStartsWithFormat(Streams(qs));
  }

  lemma AllStreamsAreOneLine(qs: seq<Quality>)
    ensures forall v :: v in Streams(qs) ==> OneLine(v)
  {
    forall v | v in Streams(qs) ensures OneLine(v) {
      var k :| 0 <= k < |qs| && Streams(qs)[k] == v;
      StreamsAreOneLine(qs[k]);
    }
  }

  lemma MasterStartsWithFormat(vs: seq<Variant>)
    ensures FORMAT_TAG + "\n" <= Text(Master(vs))
  {
    TextStartsWith(FORMAT_TAG, [VERSION_TAG] + VariantLines(vs));
    assert Master(vs) == [FORMAT_TAG] + ([VERSION_TAG] + VariantLines(vs));
  }

  lemma MasterReadsBack(vs: seq<Variant>)
    requires forall v :: v in vs ==> OneLine(v)
    ensures Variants(Lines(Text(Master(vs)), "")) == vs
  {
    VariantLinesAreClean(vs);
    TagsAreOneLine();
    LinesReadBack(Master(vs), "");
    assert Text(Master(vs)) + "" == Text(Master(vs)) && Master(vs) + Lines("", "") == Master(vs);
    HeaderSkipped(VariantLines(vs));
    VariantsReadBack(vs);
  }

  lemma HeaderSkipped(lines: seq<string>)
    ensures Variants([FORMAT_TAG, VERSION_TAG] + lines) == Variants(lines)
  {
    TagsAreOneLine();
    var all := [FORMAT_TAG, VERSION_TAG] + lines;
    assert all[1..] == [VERSION_TAG] + lines && all[1..][1..] == lines;
  }

  lemma {:induction false} TextStartsWith(first: string, lines: seq<string>)
    ensures first + "\n" <= Text([first] + lines)
  {
    var all := [first] + lines;
    if lines == [] {
      assert all[..0] == [] && Text(all) == "" + first + "\n";
    } else {
      TextStartsWith(first, lines[..|lines| - 1]);
      assert all[..|lines|] == [first] + lines[..|lines| - 1];
    }
  }

  /** Different renditions are announced under different paths. */
  lemma StreamsIdentifyQualities(q: Quality, q': Quality)
    ensures Stream(q).uri == Stream(q').uri ==> q == q'
  {
    assert Stream(q).uri[0] == Name(q)[0] && Stream(q').uri[0] == Name(q')[0];
  }
}
