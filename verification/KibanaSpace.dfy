/** Selecting a Kibana space by editing the path segments of a URL. */
module KibanaSpace {
  import opened Text

  const MARKER := "s"
  const DEFAULT_SPACE := "esdiag"
  const DEFAULT_NAMES := {"", "_default", "default"}

  // ----- Paths as the URL library reads them -----

  /** What the URL library decides: which characters separate segments, and how a segment is encoded. */
  datatype Library = Library(separates: char -> bool, encode: string -> string)

  predicate SeparatorFree(lib: Library, s: string) {
    forall k :: 0 <= k < |s| ==> !lib.separates(s[k])
  }

  predicate IsWord(s: string) {
    forall k :: 0 <= k < |s| ==> 'a' <= s[k] <= 'z'
  }

  /** A slash separates, lower-case words are kept as they are, and encoding twice is encoding once. */
  ghost predicate Sound(lib: Library) {
    && lib.separates('/')
    && (forall s: string :: IsWord(s) ==> SeparatorFree(lib, s) && lib.encode(s) == s)
    && (forall s: string :: SeparatorFree(lib, s) ==>
          SeparatorFree(lib, lib.encode(s)) && lib.encode(lib.encode(s)) == lib.encode(s))
  }

  /** Both slashes of an HTTP URL, and segments without characters to encode. */
  lemma PlainLibraryIsSound()
    ensures Sound(Library(c => c == '/' || c == '\\', s => s))
  {
  }

  const SINGLE_DOTS := {".", "%2e", "%2E"}
  const DOUBLE_DOTS := {"..", ".%2e", ".%2E", "%2e.", "%2E.", "%2e%2e", "%2e%2E", "%2E%2e", "%2E%2E"}

  predicate IsDots(segment: string) {
    segment in SINGLE_DOTS || segment in DOUBLE_DOTS
  }

  /** A character in front of the first piece, or an empty piece in front of a separator. */
  function Grown(lib: Library, c: char, pieces: seq<string>): (r: seq<string>)
    requires |pieces| >= 1
    ensures |r| >= 1
  {
    if lib.separates(c) then [""] + pieces else [[c] + pieces[0]] + pieces[1..]
  }

  function SplitAny(lib: Library, text: string): (r: seq<string>)
    ensures |r| >= 1
  {
    if text == "" then [""] else Grown(lib, text[0], SplitAny(lib, text[1..]))
  }

  function Encoded(lib: Library, pieces: seq<string>): seq<string> {
    if pieces == [] then [] else [lib.encode(pieces[0])] + Encoded(lib, pieces[1..])
  }

  /** One segment more on a path: two dots take one away, and dots at the end leave an empty segment. */
  function Pushed(path: seq<string>, segment: string, last: bool): seq<string> {
    var end := if last then [""] else [];
    if segment in DOUBLE_DOTS then (if path == [] then [] else path[..|path| - 1]) + end
    else if segment in SINGLE_DOTS then path + end
    else path + [segment]
  }

  function Walked(path: seq<string>, segments: seq<string>): seq<string>
    decreases |segments|
  {
    if segments == [] then path else Walked(Pushed(path, segments[0], |segments| == 1), segments[1..])
  }

  /** The segments of a path that was set as a text. */
  function SetPath(lib: Library, text: string): seq<string> {
    Walked([], Encoded(lib, SplitAny(lib, text)))
  }

  function NonEmpty(segments: seq<string>): seq<string> {
    if segments == [] then []
    else (if segments[0] == "" then [] else [segments[0]]) + NonEmpty(segments[1..])
  }

  // ----- Editing the segments -----

  /** A URL with a segmented path, or any text that is not one. */
  datatype KibanaUrl = Url(base: string, segments: seq<string>, suffix: string) | Other(text: string)

  /** The last "s" that has a segment after it. */
  function LastMarker(segments: seq<string>): (r: Option<nat>)
    ensures r.Some? ==> r.value + 1 < |segments| && segments[r.value] == MARKER
    ensures r.Some? ==> forall k | r.value < k < |segments| - 1 :: segments[k] != MARKER
    ensures r.None? ==> forall k | 0 <= k < |segments| - 1 :: segments[k] != MARKER
  {
    LastMarkerBelow(segments, |segments|)
  }

  function LastMarkerBelow(segments: seq<string>, n: nat): (r: Option<nat>)
    requires n <= |segments|
    ensures r.Some? ==> r.value + 1 < n && segments[r.value] == MARKER
    ensures r.Some? ==> forall k | r.value < k < n - 1 :: segments[k] != MARKER
    ensures r.None? ==> forall k | 0 <= k < n - 1 :: segments[k] != MARKER
  {
    if n < 2 then None
    else if segments[n - 2] == MARKER then Some(n - 2)
    else LastMarkerBelow(segments, n - 1)
  }

  predicate EndsWithMarker(segments: seq<string>) {
    segments != [] && segments[|segments| - 1] == MARKER
  }

  predicate HasSpace(segments: seq<string>) {
    LastMarker(segments).Some? || EndsWithMarker(segments)
  }

  /** Where a space goes into a path that has none: before the application, or at the end. */
  function InsertAt(segments: seq<string>): (r: nat)
    ensures r <= |segments|
  {
    if segments == [] || segments[0] in {"app", "api", "internal"} then 0 else 1 + InsertAt(segments[1..])
  }

  /** A space to select, or none when the default space is meant. */
  function Selected(space: Option<string>): Option<string> {
    match space
    case None => None
    case Some(text) => if Trim(text) in DEFAULT_NAMES then None else Some(Trim(text))
  }

  /** The setting of the environment: `None` means that nothing is declared. */
  function SpaceSetting(value: Option<string>): Option<string> {
    if value.None? then Some(DEFAULT_SPACE) else Selected(value)
  }

  function WithSpace(segments: seq<string>, space: string): seq<string> {
    match LastMarker(segments)
    case Some(i) => segments[i + 1 := space]
    case None =>
      if EndsWithMarker(segments) then segments + [space]
      else segments[..InsertAt(segments)] + [MARKER, space] + segments[InsertAt(segments)..]
  }

  function WithoutSpace(segments: seq<string>): seq<string> {
    match LastMarker(segments)
    case Some(i) => segments[..i] + segments[i + 2..]
    case None => if EndsWithMarker(segments) then segments[..|segments| - 1] else segments
  }

  /** The path after selecting a space: the edited segments are printed, and the URL library reads them again. */
  function Select(lib: Library, path: seq<string>, space: string): seq<string> {
    SetPath(lib, Join(WithSpace(NonEmpty(path), space), '/'))
  }

  /** The path after going back to the default space. */
  function Deselect(lib: Library, path: seq<string>): seq<string> {
    var segments := NonEmpty(path);
    if HasSpace(segments) then SetPath(lib, Join(WithoutSpace(segments), '/')) else path
  }

  function SpaceUrl(lib: Library, url: KibanaUrl, requested: Option<string>): KibanaUrl {
    match (url, Selected(requested))
    case (Url(base, path, suffix), Some(space)) => Url(base, Select(lib, path, space), suffix)
    case (Url(base, path, suffix), None) => Url(base, Deselect(lib, path), suffix)
    case (Other(text), Some(space)) => Other(text + "/s/" + space)
    case (Other(text), None) => url
  }

  lemma InsertedTwice(s: seq<string>, at: nat, a: string, b: string)
    requires at <= |s|
    ensures var once := s[..at] + [b] + s[at..];
            once[..at] + [a] + once[at..] == s[..at] + [a, b] + s[at..]
  {
    var once := s[..at] + [b] + s[at..];
    assert once[..at] == s[..at] && once[at..] == [b] + s[at..];
  }

  /** Edits the segment list in place, as the code does; `pair` is the marker with its space. */
  method EditIn(path: seq<string>, space: string) returns (segments: seq<string>)
    ensures segments == WithSpace(NonEmpty(path), space)
  {
    segments := NonEmpty(path);
    var pair := LastMarker(segments);
    if pair.Some? {
      segments := segments[pair.value + 1 := space];
    } else if EndsWithMarker(segments) {
      segments := segments + [space];
    } else {
      var at := InsertAt(segments);
      InsertedTwice(segments, at, MARKER, space);
      segments := segments[..at] + [space] + segments[at..];
      segments := segments[..at] + [MARKER] + segments[at..];
    }
  }

  method KibanaUrlWithSpace(lib: Library, url: KibanaUrl, requested: Option<string>) returns (r: KibanaUrl)
    ensures r == SpaceUrl(lib, url, requested)
    ensures url.Url? ==> r.Url? && r.base == url.base && r.suffix == url.suffix
  {
    var selected := Selected(requested);
    match (url, selected)
    case (Other(text), Some(space)) =>
      r := Other(text + "/s/" + space);
    case (Other(_), None) =>
      r := url;
    case (Url(base, path, suffix), Some(space)) =>
      var segments := EditIn(path, space);
      r := Url(base, SetPath(lib, Join(segments, '/')), suffix);
    case (Url(base, path, suffix), None) =>
      var segments := NonEmpty(path);
      var pair := LastMarker(segments);
      if pair.Some? {
        segments := segments[..pair.value] + segments[pair.value + 2..];
        r := Url(base, SetPath(lib, Join(segments, '/')), suffix);
      } else if EndsWithMarker(segments) {
        segments := segments[..|segments| - 1];
        r := Url(base, SetPath(lib, Join(segments, '/')), suffix);
      } else {
        r := url;
      }
  }

  // ----- Where the space goes -----

  /** The segments up to and with the marker that a space follows ... */
  function Before(segments: seq<string>): seq<string> {
    match LastMarker(segments)
    case Some(i) => segments[..i + 1]
    case None => if EndsWithMarker(segments) then segments else segments[..InsertAt(segments)] + [MARKER]
  }

  /** ... those before that marker ... */
  function Front(segments: seq<string>): seq<string> {
    match LastMarker(segments)
    case Some(i) => segments[..i]
    case None => if EndsWithMarker(segments) then segments[..|segments| - 1] else segments[..InsertAt(segments)]
  }

  /** ... and those after the space. */
  function After(segments: seq<string>): seq<string> {
    match LastMarker(segments)
    case Some(i) => segments[i + 2..]
    case None => if EndsWithMarker(segments) then [] else segments[InsertAt(segments)..]
  }

  /** The path falls apart at the space: no marker after it is followed by anything. */
  lemma FallsApart(segments: seq<string>, space: string)
    ensures WithSpace(segments, space) == Before(segments) + [space] + After(segments)
    ensures WithoutSpace(segments) == Front(segments) + After(segments)
    ensures Before(segments) == Front(segments) + [MARKER]
    ensures forall k | 0 <= k < |After(segments)| - 1 :: After(segments)[k] != MARKER
    ensures LastMarker(segments).None? ==> MARKER !in Front(segments)
  {
    match LastMarker(segments)
    case Some(i) =>
      assert segments[..i + 1] == segments[..i] + [MARKER];
      assert segments[i + 1 := space] == segments[..i + 1] + [space] + segments[i + 2..];
    case None =>
      if EndsWithMarker(segments) {
        var n := |segments| - 1;
        assert segments == segments[..n] + [MARKER] && segments + [space] + [] == segments + [space];
        assert segments[..n] + [] == segments[..n];
      } else {
        FallsApartInside(segments, space);
      }
  }

  lemma FallsApartInside(segments: seq<string>, space: string)
    requires !HasSpace(segments)
    ensures WithSpace(segments, space) == Before(segments) + [space] + After(segments)
    ensures WithoutSpace(segments) == Front(segments) + After(segments)
    ensures MARKER !in Front(segments) && MARKER !in After(segments)
  {
    var at := InsertAt(segments);
    NoMarkerAtAll(segments);
    NotInParts(segments, at);
    PairApart(segments[..at], space, segments[at..]);
  }

  lemma NoMarkerAtAll(segments: seq<string>)
    requires !HasSpace(segments)
    ensures MARKER !in segments
  {
  }

  lemma NotInParts(segments: seq<string>, at: nat)
    requires at <= |segments| && MARKER !in segments
    ensures MARKER !in segments[..at] && MARKER !in segments[at..] && segments[..at] + segments[at..] == segments
  {
    assert forall segment <- segments[..at] :: segment in segments;
    assert forall segment <- segments[at..] :: segment in segments;
  }

  lemma PairApart(front: seq<string>, space: string, after: seq<string>)
    ensures front + [MARKER, space] + after == front + [MARKER] + [space] + after
  {
  }

  // ----- Reading what was printed -----

  /** A segment that the URL library reads as it is. */
  predicate Plain(lib: Library, segment: string) {
    segment != "" && SeparatorFree(lib, segment) && lib.encode(segment) == segment && !IsDots(segment)
  }

  predicate AllPlain(lib: Library, segments: seq<string>) {
    forall k :: 0 <= k < |segments| ==> Plain(lib, segments[k])
  }

  /** The segments of a URL, apart from empty ones. */
  predicate IsPath(lib: Library, path: seq<string>) {
    AllPlain(lib, NonEmpty(path))
  }

  predicate NoDots(segments: seq<string>) {
    forall k :: 0 <= k < |segments| ==> !IsDots(segments[k])
  }

  /** A space none of whose pieces is one or two dots. */
  predicate DotFree(lib: Library, space: string) {
    NoDots(Encoded(lib, SplitAny(lib, space)))
  }

  /** What is read of a space that was printed as one segment. */
  function Became(lib: Library, space: string): seq<string> {
    NonEmpty(Encoded(lib, SplitAny(lib, space)))
  }

  function BecameAll(lib: Library, segments: seq<string>): seq<string> {
    if segments == [] then [] else Became(lib, segments[0]) + BecameAll(lib, segments[1..])
  }

  lemma GrownConcat(lib: Library, c: char, pieces: seq<string>, more: seq<string>)
    requires |pieces| >= 1
    ensures Grown(lib, c, pieces + more) == Grown(lib, c, pieces) + more
  {
    assert (pieces + more)[0] == pieces[0] && (pieces + more)[1..] == pieces[1..] + more;
  }

  lemma {:induction false} SplitAnyConcat(lib: Library, a: string, separator: char, b: string)
    requires lib.separates(separator)
    ensures SplitAny(lib, a + [separator] + b) == SplitAny(lib, a) + SplitAny(lib, b)
    decreases |a|
  {
    var text := a + [separator] + b;
    if a == "" {
      assert text[0] == separator && text[1..] == b;
    } else {
      assert text[0] == a[0] && text[1..] == a[1..] + [separator] + b;
      SplitAnyConcat(lib, a[1..], separator, b);
      GrownConcat(lib, a[0], SplitAny(lib, a[1..]), SplitAny(lib, b));
    }
  }

  lemma {:induction false} SplitAnyOfFree(lib: Library, s: string)
    requires SeparatorFree(lib, s)
    ensures SplitAny(lib, s) == [s]
  {
    if s != "" {
      SplitAnyOfFree(lib, s[1..]);
      assert s == [s[0]] + s[1..];
    }
  }

  lemma {:induction false} PiecesAreFree(lib: Library, s: string)
    ensures forall k :: 0 <= k < |SplitAny(lib, s)| ==> SeparatorFree(lib, SplitAny(lib, s)[k])
  {
    if s != "" {
      PiecesAreFree(lib, s[1..]);
    }
  }

  lemma {:induction false} EncodedConcat(lib: Library, a: seq<string>, b: seq<string>)
    ensures Encoded(lib, a + b) == Encoded(lib, a) + Encoded(lib, b)
  {
    if a == [] {
      assert a + b == b;
    } else {
      assert (a + b)[1..] == a[1..] + b;
      EncodedConcat(lib, a[1..], b);
    }
  }

  lemma {:induction false} EncodedAt(lib: Library, pieces: seq<string>)
    ensures |Encoded(lib, pieces)| == |pieces|
    ensures forall k :: 0 <= k < |pieces| ==> Encoded(lib, pieces)[k] == lib.encode(pieces[k])
  {
    if pieces != [] {
      EncodedAt(lib, pieces[1..]);
    }
  }

  lemma {:induction false} NonEmptyConcat(a: seq<string>, b: seq<string>)
    ensures NonEmpty(a + b) == NonEmpty(a) + NonEmpty(b)
  {
    if a == [] {
      assert a + b == b;
    } else {
      assert (a + b)[1..] == a[1..] + b;
      NonEmptyConcat(a[1..], b);
    }
  }

  lemma {:induction false} NonEmptyKeeps(lib: Library, segments: seq<string>)
    requires forall k :: 0 <= k < |segments| ==> segments[k] == "" || Plain(lib, segments[k])
    ensures AllPlain(lib, NonEmpty(segments))
  {
    if segments != [] {
      NonEmptyKeeps(lib, segments[1..]);
    }
  }

  lemma {:induction false} NonEmptyIsIdentity(segments: seq<string>)
    requires forall k :: 0 <= k < |segments| ==> segments[k] != ""
    ensures NonEmpty(segments) == segments
  {
    if segments != [] {
      NonEmptyIsIdentity(segments[1..]);
    }
  }

  lemma {:induction false} WalkedWithoutDots(path: seq<string>, segments: seq<string>)
    requires NoDots(segments)
    ensures Walked(path, segments) == path + segments
    decreases |segments|
  {
    if segments != [] {
      assert !IsDots(segments[0]);
      WalkedWithoutDots(path + [segments[0]], segments[1..]);
      assert path + [segments[0]] + segments[1..] == path + segments;
    }
  }

  predicate AllDotFree(lib: Library, segments: seq<string>) {
    forall k :: 0 <= k < |segments| ==> DotFree(lib, segments[k])
  }

  lemma {:induction false} JoinOfFree(lib: Library, segments: seq<string>)
    requires Sound(lib) && segments != []
    requires forall k :: 0 <= k < |segments| ==> SeparatorFree(lib, segments[k])
    ensures SplitAny(lib, Join(segments, '/')) == segments
    decreases |segments|
  {
    SplitAnyOfFree(lib, segments[0]);
    if |segments| > 1 {
      JoinOfFree(lib, segments[1..]);
      SplitAnyConcat(lib, segments[0], '/', Join(segments[1..], '/'));
    }
  }

  /** Printing segments and reading them again: each becomes its own pieces, in order. */
  lemma {:induction false} PiecesOfJoin(lib: Library, segments: seq<string>)
    requires Sound(lib) && segments != [] && AllDotFree(lib, segments)
    ensures NoDots(Encoded(lib, SplitAny(lib, Join(segments, '/'))))
    ensures NonEmpty(Encoded(lib, SplitAny(lib, Join(segments, '/')))) == BecameAll(lib, segments)
    decreases |segments|
  {
    var rest := segments[1..];
    assert DotFree(lib, segments[0]);
    if rest == [] {
      assert Became(lib, segments[0]) + [] == Became(lib, segments[0]);
    } else {
      PiecesOfJoin(lib, rest);
      var first, more := SplitAny(lib, segments[0]), SplitAny(lib, Join(rest, '/'));
      SplitAnyConcat(lib, segments[0], '/', Join(rest, '/'));
      EncodedConcat(lib, first, more);
      NonEmptyConcat(Encoded(lib, first), Encoded(lib, more));
    }
  }

  lemma ReadOfSet(lib: Library, segments: seq<string>)
    requires Sound(lib) && AllDotFree(lib, segments)
    ensures NonEmpty(SetPath(lib, Join(segments, '/'))) == BecameAll(lib, segments)
  {
    if segments == [] {
      assert IsWord("");
      EncodedAt(lib, [""]);
      var pieces := Encoded(lib, [""]);
      assert pieces == [""];
      WalkedWithoutDots([], pieces);
      assert [] + pieces == pieces;
      assert pieces[1..] == [] && NonEmpty(pieces) == [];
    } else {
      var pieces := Encoded(lib, SplitAny(lib, Join(segments, '/')));
      PiecesOfJoin(lib, segments);
      WalkedWithoutDots([], pieces);
      assert [] + pieces == pieces;
    }
  }

  lemma PlainBecomesItself(lib: Library, segment: string)
    requires Plain(lib, segment)
    ensures Became(lib, segment) == [segment] && DotFree(lib, segment)
  {
    SplitAnyOfFree(lib, segment);
    EncodedAt(lib, [segment]);
    assert Encoded(lib, [segment]) == [segment];
    NonEmptyIsIdentity([segment]);
  }

  lemma {:induction false} AllPlainBecome(lib: Library, segments: seq<string>)
    requires AllPlain(lib, segments)
    ensures BecameAll(lib, segments) == segments && AllDotFree(lib, segments)
  {
    if segments != [] {
      PlainBecomesItself(lib, segments[0]);
      AllPlainBecome(lib, segments[1..]);
      forall k | 0 <= k < |segments|
        ensures DotFree(lib, segments[k])
      {
        PlainBecomesItself(lib, segments[k]);
      }
    }
  }

  lemma {:induction false} BecameAllConcat(lib: Library, a: seq<string>, b: seq<string>)
    ensures BecameAll(lib, a + b) == BecameAll(lib, a) + BecameAll(lib, b)
  {
    if a == [] {
      assert a + b == b;
    } else {
      assert (a + b)[1..] == a[1..] + b;
      BecameAllConcat(lib, a[1..], b);
    }
  }

  /** What a space became is made of plain segments. */
  lemma BecameIsPlain(lib: Library, space: string)
    requires Sound(lib) && DotFree(lib, space)
    ensures AllPlain(lib, Became(lib, space))
  {
    var pieces := SplitAny(lib, space);
    PiecesAreFree(lib, space);
    EncodedAt(lib, pieces);
    forall k | 0 <= k < |pieces|
      ensures Encoded(lib, pieces)[k] == "" || Plain(lib, Encoded(lib, pieces)[k])
    {
      assert SeparatorFree(lib, pieces[k]);
    }
    NonEmptyKeeps(lib, Encoded(lib, pieces));
  }

  lemma DotFreeBetween(lib: Library, before: seq<string>, space: string, after: seq<string>)
    requires AllDotFree(lib, before) && AllDotFree(lib, after) && DotFree(lib, space)
    ensures AllDotFree(lib, before + [space] + after)
  {
  }

  lemma PlainBetween(lib: Library, before: seq<string>, segments: seq<string>, after: seq<string>)
    requires AllPlain(lib, before) && AllPlain(lib, segments) && AllPlain(lib, after)
    ensures AllPlain(lib, before + segments + after)
  {
  }

  lemma BecomeBetween(lib: Library, before: seq<string>, space: string, after: seq<string>)
    requires AllPlain(lib, before) && AllPlain(lib, after)
    ensures BecameAll(lib, before + [space] + after) == before + Became(lib, space) + after
  {
    AllPlainBecome(lib, before);
    AllPlainBecome(lib, after);
    BecameAllConcat(lib, before + [space], after);
    BecameAllConcat(lib, before, [space]);
    assert BecameAll(lib, [space]) == Became(lib, space) + [] == Became(lib, space);
  }

  lemma ReadBetween(lib: Library, before: seq<string>, space: string, after: seq<string>)
    requires Sound(lib) && AllPlain(lib, before) && AllPlain(lib, after) && DotFree(lib, space)
    ensures NonEmpty(SetPath(lib, Join(before + [space] + after, '/'))) == before + Became(lib, space) + after
    ensures AllPlain(lib, before + Became(lib, space) + after)
  {
    AllPlainBecome(lib, before);
    AllPlainBecome(lib, after);
    DotFreeBetween(lib, before, space, after);
    ReadOfSet(lib, before + [space] + after);
    BecomeBetween(lib, before, space, after);
    BecameIsPlain(lib, space);
    PlainBetween(lib, before, Became(lib, space), after);
  }

  /** The segments that are read after a space was selected. */
  lemma ReadOfSelect(lib: Library, path: seq<string>, space: string)
    requires Sound(lib) && IsPath(lib, path) && DotFree(lib, space)
    ensures var n := NonEmpty(path);
            NonEmpty(Select(lib, path, space)) == Before(n) + Became(lib, space) + After(n)
    ensures IsPath(lib, Select(lib, path, space))
  {
    var n := NonEmpty(path);
    FallsApart(n, space);
    PartsArePlain(lib, n);
    ReadBetween(lib, Before(n), space, After(n));
  }

  lemma MarkerIsPlain(lib: Library)
    requires Sound(lib)
    ensures Plain(lib, MARKER)
  {
    assert IsWord(MARKER);
    assert MARKER[0] == 's';
  }

  lemma PartsArePlain(lib: Library, segments: seq<string>)
    requires Sound(lib) && AllPlain(lib, segments)
    ensures AllPlain(lib, Before(segments)) && AllPlain(lib, After(segments)) && AllPlain(lib, Front(segments))
  {
    MarkerIsPlain(lib);
    match LastMarker(segments)
    case Some(i) =>
    case None =>
      if EndsWithMarker(segments) {
        assert Front(segments) == segments[..|segments| - 1];
      } else {
        assert Before(segments) == Front(segments) + [MARKER];
      }
  }

  /** The segments that are read after going back to the default space. */
  lemma ReadOfDeselect(lib: Library, path: seq<string>)
    requires Sound(lib) && IsPath(lib, path)
    ensures NonEmpty(Deselect(lib, path)) == WithoutSpace(NonEmpty(path))
  {
    var n := NonEmpty(path);
    if HasSpace(n) {
      FallsApart(n, "");
      PartsArePlain(lib, n);
      var left := Front(n) + After(n);
      AllPlainBecome(lib, left);
      ReadOfSet(lib, left);
    }
  }

  // ----- Selecting again -----

  /** No marker in the list is followed by anything. */
  predicate Quiet(segments: seq<string>) {
    forall k | 0 <= k < |segments| - 1 :: segments[k] != MARKER
  }

  function Placed(front: seq<string>, became: seq<string>, after: seq<string>): seq<string> {
    front + [MARKER] + became + after
  }

  /** The space became nothing at the end of a path without another marker. */
  predicate Vanishes(front: seq<string>, became: seq<string>, after: seq<string>) {
    became == [] && after == [] && MARKER !in front
  }

  lemma NothingPlaced(front: seq<string>, became: seq<string>, after: seq<string>)
    requires Quiet(after)
    ensures LastMarker(Placed(front, became, after)).None? <==> Vanishes(front, became, after)
    ensures Vanishes(front, became, after) ==>
              && Placed(front, became, after) == front + [MARKER]
              && Before(Placed(front, became, after)) == front + [MARKER] && After(Placed(front, became, after)) == []
              && Front(Placed(front, became, after)) == front
  {
    var m := Placed(front, became, after);
    assert m[|front|] == MARKER;
    if became == [] && after == [] {
      assert m == front + [MARKER];
      if k :| 0 <= k < |front| && front[k] == MARKER {
        assert m[k] == MARKER;
      }
    }
  }

  /** A space of one segment is found where it was put, unless it is a marker itself and followed by something. */
  lemma OnePlaced(front: seq<string>, segment: string, after: seq<string>)
    requires Quiet(after)
    ensures LastMarker(Placed(front, [segment], after))
         == Some(if segment == MARKER && after != [] then |front| + 1 else |front|)
  {
    var m := Placed(front, [segment], after);
    assert m[|front|] == MARKER && m[|front| + 1] == segment;
    assert forall k | |front| + 2 <= k < |m| :: m[k] == after[k - |front| - 2];
  }

  lemma OnePlacedApart(front: seq<string>, segment: string, after: seq<string>)
    requires Quiet(after)
    ensures var m := Placed(front, [segment], after);
            if segment == MARKER && after != [] then
              && Before(m) == front + [MARKER, MARKER] && After(m) == after[1..] && Front(m) == front + [MARKER]
            else Before(m) == front + [MARKER] && After(m) == after && Front(m) == front
  {
    var m := Placed(front, [segment], after);
    OnePlaced(front, segment, after);
    if segment == MARKER && after != [] {
      assert m == front + [MARKER, MARKER] + after;
    } else {
      assert m == front + [MARKER] + ([segment] + after);
    }
  }

  lemma LengthsApart(segments: seq<string>)
    requires LastMarker(segments).Some?
    ensures |Before(segments)| + |After(segments)| == |segments| - 1
    ensures |Front(segments)| + |After(segments)| == |segments| - 2
  {
  }

  /** Selecting once more gives the same segments exactly for one segment, or where nothing was left of the space. */
  lemma AgainExactly(front: seq<string>, became: seq<string>, after: seq<string>)
    requires Quiet(after)
    ensures var m := Placed(front, became, after);
            Before(m) + became + After(m) == m <==>
              || Vanishes(front, became, after)
              || (|became| == 1 && (became[0] != MARKER || after == [] || after[0] == MARKER))
  {
    var m := Placed(front, became, after);
    NothingPlaced(front, became, after);
    if LastMarker(m).Some? {
      LengthsApart(m);
      if |became| == 1 {
        assert became == [became[0]];
        OnePlacedApart(front, became[0], after);
        if became[0] == MARKER && after != [] {
          SameRest(front, became[0], after);
        }
      }
    }
  }

  lemma SameRest(front: seq<string>, segment: string, after: seq<string>)
    requires after != []
    ensures front + [MARKER, MARKER] + [segment] + after[1..] == Placed(front, [MARKER], after) <==> segment == after[0]
  {
    var m, w := Placed(front, [MARKER], after), front + [MARKER, MARKER] + [segment] + after[1..];
    assert w[|front| + 2] == segment && m[|front| + 2] == after[0];
    if segment == after[0] {
      assert after == [after[0]] + after[1..];
      assert w == front + [MARKER, MARKER] + ([segment] + after[1..]);
      assert m == front + [MARKER, MARKER] + after;
    }
  }

  /** Going back after selecting leaves what going back at once would, exactly in the same cases. */
  lemma BackExactly(front: seq<string>, became: seq<string>, after: seq<string>)
    requires Quiet(after)
    ensures WithoutSpace(Placed(front, became, after)) == front + after <==>
              || Vanishes(front, became, after)
              || (|became| == 1 && (became[0] != MARKER || after == [] || after[0] == MARKER))
  {
    var m := Placed(front, became, after);
    FallsApart(m, "");
    NothingPlaced(front, became, after);
    if LastMarker(m).Some? {
      LengthsApart(m);
      if |became| == 1 {
        assert became == [became[0]];
        OnePlacedApart(front, became[0], after);
        if became[0] == MARKER && after != [] {
          assert (front + [MARKER] + after[1..])[|front|] == MARKER && (front + after)[|front|] == after[0];
          assert after == [after[0]] + after[1..];
          assert after[0] == MARKER ==> front + [MARKER] + after[1..] == front + after;
        }
      }
    }
  }

  // ----- The laws, for every path and every space -----

  /** What selecting `a` leaves on the path, and how it is read. */
  lemma Selecting(lib: Library, path: seq<string>, a: string)
    requires Sound(lib) && IsPath(lib, path) && DotFree(lib, a)
    ensures var n := NonEmpty(path);
            NonEmpty(Select(lib, path, a)) == Placed(Front(n), Became(lib, a), After(n)) && Quiet(After(n))
    ensures IsPath(lib, Select(lib, path, a))
  {
    var n := NonEmpty(path);
    ReadOfSelect(lib, path, a);
    FallsApart(n, a);
  }

  /** One plain segment that is no marker, or one with which the marker changes nothing. */
  predicate Harmless(segments: seq<string>, became: seq<string>) {
    var after := After(segments);
    || Vanishes(Front(segments), became, after)
    || (|became| == 1 && (became[0] != MARKER || after == [] || after[0] == MARKER))
  }

  /** Selecting a space twice leaves the segments of selecting it once exactly when what it became is harmless there. */
  lemma SelectingTwiceExactly(lib: Library, path: seq<string>, a: string)
    requires Sound(lib) && IsPath(lib, path) && DotFree(lib, a)
    ensures NonEmpty(Select(lib, Select(lib, path, a), a)) == NonEmpty(Select(lib, path, a)) <==>
              Harmless(NonEmpty(path), Became(lib, a))
  {
    var n := NonEmpty(path);
    Selecting(lib, path, a);
    ReadOfSelect(lib, Select(lib, path, a), a);
    AgainExactly(Front(n), Became(lib, a), After(n));
  }

  /** Going back to the default space undoes a selection in the same cases. */
  lemma DeselectUndoesExactly(lib: Library, path: seq<string>, a: string)
    requires Sound(lib) && IsPath(lib, path) && DotFree(lib, a)
    ensures NonEmpty(Deselect(lib, Select(lib, path, a))) == NonEmpty(Deselect(lib, path)) <==>
              Harmless(NonEmpty(path), Became(lib, a))
  {
    var n := NonEmpty(path);
    Selecting(lib, path, a);
    ReadOfDeselect(lib, Select(lib, path, a));
    ReadOfDeselect(lib, path);
    FallsApart(n, a);
    BackExactly(Front(n), Became(lib, a), After(n));
  }

  /** On a path without a space it restores the segments. */
  lemma DeselectRestoresExactly(lib: Library, path: seq<string>, a: string)
    requires Sound(lib) && IsPath(lib, path) && DotFree(lib, a) && !HasSpace(NonEmpty(path))
    ensures NonEmpty(Deselect(lib, Select(lib, path, a))) == NonEmpty(path) <==>
              Harmless(NonEmpty(path), Became(lib, a))
  {
    DeselectUndoesExactly(lib, path, a);
  }

  const PROBE := "t"

  lemma ProbeIsPlain(lib: Library)
    requires Sound(lib)
    ensures DotFree(lib, PROBE) && Became(lib, PROBE) == [PROBE] && PROBE != MARKER
  {
    assert IsWord(PROBE) && |PROBE| == 1 && PROBE[0] == 't' && MARKER[0] == 's';
    PlainBecomesItself(lib, PROBE);
  }

  /** The later of two spaces counts. */
  ghost predicate LaterWins(lib: Library, path: seq<string>, a: string) {
    forall b :: DotFree(lib, b) ==>
      NonEmpty(Select(lib, Select(lib, path, a), b)) == NonEmpty(Select(lib, path, b))
  }

  /** What the first space must have become for every later one to replace it. */
  predicate Replaceable(segments: seq<string>, became: seq<string>) {
    || Vanishes(Front(segments), became, After(segments))
    || (|became| == 1 && (became[0] != MARKER || After(segments) == []))
  }

  lemma SelectingAfter(lib: Library, path: seq<string>, a: string, b: string)
    requires Sound(lib) && IsPath(lib, path) && DotFree(lib, a) && DotFree(lib, b)
    ensures var n := NonEmpty(path);
            var m := Placed(Front(n), Became(lib, a), After(n));
            && NonEmpty(Select(lib, Select(lib, path, a), b)) == Before(m) + Became(lib, b) + After(m)
            && NonEmpty(Select(lib, path, b)) == Placed(Front(n), Became(lib, b), After(n))
  {
    Selecting(lib, path, a);
    ReadOfSelect(lib, Select(lib, path, a), b);
    Selecting(lib, path, b);
  }

  lemma ReplacedBy(front: seq<string>, became: seq<string>, after: seq<string>, later: seq<string>)
    requires Quiet(after)
    requires Vanishes(front, became, after) || (|became| == 1 && (became[0] != MARKER || after == []))
    ensures var m := Placed(front, became, after);
            Before(m) + later + After(m) == Placed(front, later, after)
  {
    NothingPlaced(front, became, after);
    if |became| == 1 {
      assert became == [became[0]];
      OnePlacedApart(front, became[0], after);
    }
  }

  lemma NotReplaced(front: seq<string>, became: seq<string>, after: seq<string>)
    requires Quiet(after)
    requires !Vanishes(front, became, after) && !(|became| == 1 && (became[0] != MARKER || after == []))
    ensures var m := Placed(front, became, after);
            Before(m) + [PROBE] + After(m) != Placed(front, [PROBE], after)
  {
    var m := Placed(front, became, after);
    NothingPlaced(front, became, after);
    LengthsApart(m);
    if |became| == 1 {
      assert became == [became[0]];
      OnePlacedApart(front, became[0], after);
      assert (Before(m) + [PROBE] + After(m))[|front| + 1] == MARKER;
      assert Placed(front, [PROBE], after)[|front| + 1] == PROBE;
      assert PROBE[0] == 't' && MARKER[0] == 's';
    }
  }

  /** Whatever space is selected later counts exactly when the first one became one segment that stays put. */
  lemma LaterWinsExactly(lib: Library, path: seq<string>, a: string)
    requires Sound(lib) && IsPath(lib, path) && DotFree(lib, a)
    ensures LaterWins(lib, path, a) <==> Replaceable(NonEmpty(path), Became(lib, a))
  {
    var n := NonEmpty(path);
    FallsApart(n, a);
    if Replaceable(n, Became(lib, a)) {
      forall b | DotFree(lib, b)
        ensures NonEmpty(Select(lib, Select(lib, path, a), b)) == NonEmpty(Select(lib, path, b))
      {
        SelectingAfter(lib, path, a, b);
        ReplacedBy(Front(n), Became(lib, a), After(n), Became(lib, b));
      }
    } else {
      ProbeIsPlain(lib);
      SelectingAfter(lib, path, a, PROBE);
      NotReplaced(Front(n), Became(lib, a), After(n));
    }
  }

  // ----- The spaces that are safe on every path -----

  ghost predicate TwiceIsOnce(lib: Library, a: string) {
    forall path :: IsPath(lib, path) ==>
      NonEmpty(Select(lib, Select(lib, path, a), a)) == NonEmpty(Select(lib, path, a))
  }

  ghost predicate BackUndoes(lib: Library, a: string) {
    forall path :: IsPath(lib, path) ==>
      NonEmpty(Deselect(lib, Select(lib, path, a))) == NonEmpty(Deselect(lib, path))
  }

  ghost predicate AlwaysReplaced(lib: Library, a: string) {
    forall path :: IsPath(lib, path) ==> LaterWins(lib, path, a)
  }

  /** A space that is read as one segment, and not as the marker. */
  predicate SingleSegment(lib: Library, a: string) {
    |Became(lib, a)| == 1 && Became(lib, a)[0] != MARKER
  }

  const APPLICATION := "app"

  lemma ApplicationPath(lib: Library)
    requires Sound(lib)
    ensures IsPath(lib, [APPLICATION])
    ensures NonEmpty([APPLICATION]) == [APPLICATION]
    ensures Front([APPLICATION]) == [] && After([APPLICATION]) == [APPLICATION] && APPLICATION != MARKER
  {
    assert IsWord(APPLICATION) && |APPLICATION| == 3 && APPLICATION[0] == 'a' && |MARKER| == 1;
    NonEmptyIsIdentity([APPLICATION]);
  }

  /** Each law holds on every path exactly for the spaces that are read as one segment other than the marker. */
  lemma SafeSpacesExactly(lib: Library, a: string)
    requires Sound(lib) && DotFree(lib, a)
    ensures TwiceIsOnce(lib, a) <==> SingleSegment(lib, a)
    ensures BackUndoes(lib, a) <==> SingleSegment(lib, a)
    ensures AlwaysReplaced(lib, a) <==> SingleSegment(lib, a)
  {
    if SingleSegment(lib, a) {
      forall path | IsPath(lib, path)
        ensures NonEmpty(Select(lib, Select(lib, path, a), a)) == NonEmpty(Select(lib, path, a))
        ensures NonEmpty(Deselect(lib, Select(lib, path, a))) == NonEmpty(Deselect(lib, path))
        ensures LaterWins(lib, path, a)
      {
        SelectingTwiceExactly(lib, path, a);
        DeselectUndoesExactly(lib, path, a);
        LaterWinsExactly(lib, path, a);
      }
    } else {
      ApplicationPath(lib);
      SelectingTwiceExactly(lib, [APPLICATION], a);
      DeselectUndoesExactly(lib, [APPLICATION], a);
      LaterWinsExactly(lib, [APPLICATION], a);
    }
  }

  /** A space that no character splits leaves no empty segment, so equal segments are equal URLs. */
  lemma SelectedAsRead(lib: Library, path: seq<string>, a: string)
    requires Sound(lib) && IsPath(lib, path)
    requires SeparatorFree(lib, a) && lib.encode(a) != "" && !IsDots(lib.encode(a))
    ensures Select(lib, path, a) == NonEmpty(Select(lib, path, a))
    ensures DotFree(lib, a) && Became(lib, a) == [lib.encode(a)]
  {
    var n := NonEmpty(path);
    FallsApart(n, a);
    PartsArePlain(lib, n);
    SegmentAsRead(lib, Before(n), a, After(n));
    SplitAnyOfFree(lib, a);
    EncodedAt(lib, [a]);
    assert Encoded(lib, [a]) == [lib.encode(a)];
    NonEmptyIsIdentity([lib.encode(a)]);
  }

  lemma SegmentAsRead(lib: Library, before: seq<string>, a: string, after: seq<string>)
    requires Sound(lib) && AllPlain(lib, before) && AllPlain(lib, after)
    requires SeparatorFree(lib, a) && lib.encode(a) != "" && !IsDots(lib.encode(a))
    ensures var path := SetPath(lib, Join(before + [a] + after, '/'));
            path == NonEmpty(path)
  {
    var segments := before + [a] + after;
    JoinOfFree(lib, segments);
    EncodedAt(lib, segments);
    var encoded := Encoded(lib, segments);
    forall k | 0 <= k < |encoded|
      ensures encoded[k] != "" && !IsDots(encoded[k])
    {
      assert segments[k] == a || Plain(lib, segments[k]);
    }
    WalkedWithoutDots([], encoded);
    assert [] + encoded == encoded;
    NonEmptyIsIdentity(encoded);
  }

  /** Selecting such a space twice gives the very path of selecting it once. */
  lemma SameUrlTwice(lib: Library, path: seq<string>, a: string)
    requires Sound(lib) && IsPath(lib, path)
    requires SeparatorFree(lib, a) && lib.encode(a) != "" && !IsDots(lib.encode(a)) && lib.encode(a) != MARKER
    ensures Select(lib, Select(lib, path, a), a) == Select(lib, path, a)
  {
    SelectedAsRead(lib, path, a);
    Selecting(lib, path, a);
    SelectedAsRead(lib, Select(lib, path, a), a);
    SelectingTwiceExactly(lib, path, a);
  }

  // ----- Where the space goes -----

  /** A setting selects the trimmed text, unless that is blank or names the default space. */
  lemma SelectedExactly(text: string, space: string)
    ensures Selected(Some(text)) == Some(space) <==>
              space == Trim(text) && space != "" && space != "_default" && space != "default"
    ensures Selected(None) == None
    ensures SpaceSetting(Some(text)) == Selected(Some(text)) && SpaceSetting(None) == Some("esdiag")
  {
  }

  /** A space that the URL library reads as one segment. */
  predicate OneSegment(lib: Library, space: string) {
    SeparatorFree(lib, space) && lib.encode(space) != "" && !IsDots(lib.encode(space))
  }

  /** A text that selects this space. */
  predicate Asks(text: string, space: string) {
    space == Trim(text) && space != "" && space != "_default" && space != "default"
  }

  lemma SelectedUrl(lib: Library, base: string, path: seq<string>, suffix: string, text: string, space: string)
    requires Sound(lib) && IsPath(lib, path) && Asks(text, space) && OneSegment(lib, space)
    ensures var n, r := NonEmpty(path), SpaceUrl(lib, Url(base, path, suffix), Some(text));
            && r == Url(base, Select(lib, path, space), suffix)
            && NonEmpty(r.segments) == Before(n) + [lib.encode(space)] + After(n)
  {
    SelectedExactly(text, space);
    SelectedAsRead(lib, path, space);
    ReadOfSelect(lib, path, space);
  }

  lemma WithoutMarker(n: seq<string>, space: string) returns (before: seq<string>, after: seq<string>)
    requires "s" !in n
    ensures before + after == n && Before(n) + [space] + After(n) == before + ["s", space] + after
    ensures "app" !in before && "api" !in before && "internal" !in before
    ensures after == [] || after[0] == "app" || after[0] == "api" || after[0] == "internal"
  {
    before, after := n[..InsertAt(n)], n[InsertAt(n)..];
    FirstApplication(n);
    assert LastMarker(n).None? && !EndsWithMarker(n);
    PairApart(before, space, after);
  }

  lemma {:induction false} FirstApplication(segments: seq<string>)
    ensures var at := InsertAt(segments);
            && "app" !in segments[..at] && "api" !in segments[..at] && "internal" !in segments[..at]
            && (at < |segments| ==> segments[at] in {"app", "api", "internal"})
  {
    if segments != [] && segments[0] !in {"app", "api", "internal"} {
      var at := InsertAt(segments[1..]);
      FirstApplication(segments[1..]);
      assert segments[..at + 1] == [segments[0]] + segments[1..][..at];
    }
  }

  /** The last marker that has a segment after it. */
  predicate IsLastMarker(n: seq<string>, i: nat) {
    i + 1 < |n| && n[i] == "s" && forall k :: i < k < |n| - 1 ==> n[k] != "s"
  }

  lemma WithMarker(n: seq<string>, space: string, i: nat)
    requires IsLastMarker(n, i)
    ensures LastMarker(n) == Some(i) && Before(n) + [space] + After(n) == n[i + 1 := space]
    ensures WithoutSpace(n) == n[..i] + n[i + 2..]
  {
    assert LastMarker(n) == Some(i);
    assert n[i + 1 := space] == n[..i + 1] + [space] + n[i + 2..];
  }

  lemma WithLoneMarker(n: seq<string>, space: string, front: seq<string>)
    requires n == front + ["s"] && "s" !in front
    ensures Before(n) + [space] + After(n) == front + ["s", space] && WithoutSpace(n) == front
  {
    assert forall k | 0 <= k < |n| - 1 :: n[k] in front;
    assert LastMarker(n).None? && EndsWithMarker(n);
    assert n[..|n| - 1] == front;
    assert n + [space] + [] == front + ["s", space];
  }

  /**
   * In a path without a marker the space goes, behind a marker, in front of the first segment of an application, or at
   * the end; every other segment stays where it is.
   */
  lemma SpaceGoesBeforeApplication(lib: Library, base: string, path: seq<string>, suffix: string, text: string,
                                   space: string) returns (before: seq<string>, after: seq<string>)
    requires Sound(lib) && IsPath(lib, path) && "s" !in NonEmpty(path) && Asks(text, space) && OneSegment(lib, space)
    ensures before + after == NonEmpty(path)
    ensures "app" !in before && "api" !in before && "internal" !in before
    ensures after == [] || after[0] == "app" || after[0] == "api" || after[0] == "internal"
    ensures var r := SpaceUrl(lib, Url(base, path, suffix), Some(text));
            && r.Url? && r.base == base && r.suffix == suffix
            && NonEmpty(r.segments) == before + ["s", lib.encode(space)] + after
  {
    SelectedUrl(lib, base, path, suffix, text, space);
    before, after := WithoutMarker(NonEmpty(path), lib.encode(space));
  }

  /** With a marker only the segment after the last one that has any changes. */
  lemma SpaceReplacesTheLast(lib: Library, base: string, path: seq<string>, suffix: string, text: string,
                             space: string, i: nat)
    requires Sound(lib) && IsPath(lib, path) && Asks(text, space) && OneSegment(lib, space)
    requires IsLastMarker(NonEmpty(path), i)
    ensures var r := SpaceUrl(lib, Url(base, path, suffix), Some(text));
            && r.Url? && r.base == base && r.suffix == suffix
            && NonEmpty(r.segments) == NonEmpty(path)[i + 1 := lib.encode(space)]
  {
    SelectedUrl(lib, base, path, suffix, text, space);
    WithMarker(NonEmpty(path), lib.encode(space), i);
  }

  /** A marker at the end gets the space it lacks. */
  lemma SpaceFollowsALoneMarker(lib: Library, base: string, path: seq<string>, suffix: string, text: string,
                                space: string, front: seq<string>)
    requires Sound(lib) && IsPath(lib, path) && Asks(text, space) && OneSegment(lib, space)
    requires NonEmpty(path) == front + ["s"] && "s" !in front
    ensures var r := SpaceUrl(lib, Url(base, path, suffix), Some(text));
            r.Url? && r.base == base && r.suffix == suffix && NonEmpty(r.segments) == front + ["s", lib.encode(space)]
  {
    SelectedUrl(lib, base, path, suffix, text, space);
    WithLoneMarker(NonEmpty(path), lib.encode(space), front);
  }

  /** The default space takes the last marker and its space away, a marker at the end, or nothing. */
  lemma DefaultTakesTheLastAway(lib: Library, base: string, path: seq<string>, suffix: string, text: Option<string>,
                                i: nat, front: seq<string>)
    requires Sound(lib) && IsPath(lib, path)
    requires text.None? || Trim(text.value) == "" || Trim(text.value) == "_default" || Trim(text.value) == "default"
    ensures var n, r := NonEmpty(path), SpaceUrl(lib, Url(base, path, suffix), text);
            && r.Url? && r.base == base && r.suffix == suffix
            && (IsLastMarker(n, i) ==> NonEmpty(r.segments) == n[..i] + n[i + 2..])
            && (n == front + ["s"] && "s" !in front ==> NonEmpty(r.segments) == front)
            && ("s" !in n ==> r.segments == path)
  {
    var n := NonEmpty(path);
    ReadOfDeselect(lib, path);
    if text.Some? {
      SelectedExactly(text.value, Trim(text.value));
    }
    if IsLastMarker(n, i) {
      WithMarker(n, "", i);
    }
    if n == front + ["s"] && "s" !in front {
      WithLoneMarker(n, "", front);
    }
  }

  // ----- Spaces that are not safe -----

  lemma LettersArePlain(lib: Library)
    requires Sound(lib)
    ensures Plain(lib, "a") && Plain(lib, "b") && Plain(lib, MARKER)
    ensures "a" != MARKER && "b" != MARKER
  {
    assert IsWord("a") && IsWord("b") && IsWord(MARKER);
    assert |"a"| == 1 && "a"[0] == 'a' && |"b"| == 1 && "b"[0] == 'b' && MARKER[0] == 's';
  }

  lemma SlashSplits(lib: Library, a: string, b: string)
    requires Sound(lib) && Plain(lib, a) && Plain(lib, b)
    ensures Became(lib, a + "/" + b) == [a, b] && DotFree(lib, a + "/" + b)
  {
    AllPlainBecome(lib, [a, b]);
    PiecesOfJoin(lib, [a, b]);
    assert [a, b][1..] == [b];
    assert Join([a, b], '/') == a + ['/'] + b;
  }

  lemma PairRead(a: string, b: string)
    requires a != MARKER
    ensures Before([MARKER, a, b]) == [MARKER] && After([MARKER, a, b]) == [b]
    ensures WithoutSpace([MARKER, a, b]) == [b]
  {
    var n := [MARKER, a, b];
    assert n[0] == MARKER && n[1] == a && LastMarker(n) == Some(0);
  }

  lemma PairPlaced(segments: seq<string>, placed: seq<string>, became: seq<string>, a: string, b: string)
    requires segments == [] && became == [a, b]
    requires placed == Placed(Front(segments), became, After(segments))
    ensures placed == [MARKER, a, b]
  {
    assert Front(segments) == [] && After(segments) == [];
  }

  /** A space that is read as two segments, on a path without any ... */
  lemma PairOnce(lib: Library, path: seq<string>, space: string, a: string, b: string)
    requires Sound(lib) && IsPath(lib, path) && NonEmpty(path) == []
    requires DotFree(lib, space) && Became(lib, space) == [a, b]
    ensures NonEmpty(Select(lib, path, space)) == [MARKER, a, b]
    ensures IsPath(lib, Select(lib, path, space))
  {
    Selecting(lib, path, space);
    PairPlaced(NonEmpty(path), NonEmpty(Select(lib, path, space)), Became(lib, space), a, b);
  }

  /** ... and on the path that it made. */
  lemma PairTwice(lib: Library, once: seq<string>, space: string, a: string, b: string)
    requires Sound(lib) && IsPath(lib, once) && NonEmpty(once) == [MARKER, a, b]
    requires DotFree(lib, space) && Became(lib, space) == [a, b] && a != MARKER
    ensures NonEmpty(Select(lib, once, space)) == [MARKER, a, b, b]
    ensures NonEmpty(Deselect(lib, once)) == [b]
  {
    PairRead(a, b);
    ReadOfSelect(lib, once, space);
    ReadOfDeselect(lib, once);
    assert [MARKER] + [a, b] + [b] == [MARKER, a, b, b];
  }

  /** A space with a slash grows each time it is selected, and going back leaves a part of it. */
  lemma SlashAccumulates(lib: Library, path: seq<string>)
    requires Sound(lib) && IsPath(lib, path) && NonEmpty(path) == []
    ensures var once := Select(lib, path, "a/b");
            && NonEmpty(once) == ["s", "a", "b"]
            && NonEmpty(Select(lib, once, "a/b")) == ["s", "a", "b", "b"]
            && NonEmpty(Deselect(lib, once)) == ["b"]
  {
    LettersArePlain(lib);
    SlashSplits(lib, "a", "b");
    assert "a" + "/" + "b" == "a/b";
    PairOnce(lib, path, "a/b", "a", "b");
    PairTwice(lib, Select(lib, path, "a/b"), "a/b", "a", "b");
  }

  /** Two dots take the marker away again, so that selecting once more finds an earlier one. */
  lemma DotsTakeTheMarkerAway(lib: Library)
    requires Sound(lib) && SeparatorFree(lib, "..") && lib.encode("..") == ".."
    ensures var path := ["s", "a", "s", "b"];
            && IsPath(lib, path)
            && NonEmpty(Select(lib, path, "..")) == ["s", "a"]
            && NonEmpty(Select(lib, Select(lib, path, ".."), "..")) == []
  {
    LettersArePlain(lib);
    var path := [MARKER, "a", MARKER, "b"];
    NonEmptyIsIdentity(path);
    assert LastMarker(path) == Some(2);
    assert WithSpace(path, "..") == [MARKER, "a", MARKER, ".."];
    EndsInDots(lib, [MARKER, "a", MARKER]);
    assert [MARKER, "a", MARKER] + [".."] == [MARKER, "a", MARKER, ".."];
    assert [MARKER, "a", MARKER][..2] + [""] == [MARKER, "a", ""];
    NonEmptyOfThree("a");
    assert NonEmpty(Select(lib, path, "..")) == [MARKER, "a"];
    assert LastMarker([MARKER, "a"]) == Some(0);
    assert WithSpace([MARKER, "a"], "..") == [MARKER] + [".."];
    EndsInDots(lib, [MARKER]);
    assert [MARKER][..0] + [""] == [""] && [""][1..] == [];
    assert NonEmpty([""]) == [];
  }

  lemma NonEmptyOfThree(segment: string)
    requires segment != ""
    ensures NonEmpty([MARKER, segment, ""]) == [MARKER, segment]
  {
    NonEmptyIsIdentity([MARKER, segment]);
    assert [""][1..] == [];
    NonEmptyConcat([MARKER, segment], [""]);
    assert [MARKER, segment] + [""] == [MARKER, segment, ""];
  }

  lemma EndsInDots(lib: Library, path: seq<string>)
    requires Sound(lib) && SeparatorFree(lib, "..") && lib.encode("..") == ".."
    requires AllPlain(lib, path) && path != []
    ensures SetPath(lib, Join(path + [".."], '/')) == path[..|path| - 1] + [""]
  {
    FreeToTheEnd(lib, path, "..");
    JoinOfFree(lib, path + [".."]);
    EncodedToTheEnd(lib, path, "..");
    PlainHasNoDots(lib, path);
    WalkedToTheEnd([], path, "..");
    assert [] + path == path;
  }

  lemma PlainHasNoDots(lib: Library, segments: seq<string>)
    requires AllPlain(lib, segments)
    ensures NoDots(segments)
  {
  }

  lemma FreeToTheEnd(lib: Library, segments: seq<string>, last: string)
    requires AllPlain(lib, segments) && SeparatorFree(lib, last)
    ensures forall k :: 0 <= k < |segments + [last]| ==> SeparatorFree(lib, (segments + [last])[k])
  {
  }

  lemma EncodedToTheEnd(lib: Library, segments: seq<string>, last: string)
    requires AllPlain(lib, segments) && lib.encode(last) == last
    ensures Encoded(lib, segments + [last]) == segments + [last]
  {
    EncodedAt(lib, segments + [last]);
  }

  lemma {:induction false} WalkedToTheEnd(path: seq<string>, segments: seq<string>, last: string)
    requires NoDots(segments)
    ensures Walked(path, segments + [last]) == Pushed(path + segments, last, true)
    decreases |segments|
  {
    if segments == [] {
      assert [last][1..] == [] && segments + [last] == [last] && path + segments == path;
    } else {
      assert !IsDots(segments[0]);
      assert (segments + [last])[1..] == segments[1..] + [last];
      WalkedToTheEnd(path + [segments[0]], segments[1..], last);
      assert path + [segments[0]] + segments[1..] == path + segments;
    }
  }

  function WithoutSlashes(text: string): (r: string)
    ensures r <= text
  {
    if text != "" && text[|text| - 1] == '/' then WithoutSlashes(text[..|text| - 1]) else text
  }

  /** How a text is taken: trimmed, and read by the URL library. */
  function UrlOf(read: string -> KibanaUrl, text: string): KibanaUrl {
    read(WithoutSlashes(text))
  }

  /** The text is no URL with a path. */
  predicate NoUrl(read: string -> KibanaUrl, text: string) {
    UrlOf(read, text) == Other(WithoutSlashes(text))
  }

  lemma {:induction false} TrimmedKeepsPrefix(prefix: string, more: string)
    requires prefix != "" && prefix[|prefix| - 1] != '/'
    ensures prefix <= WithoutSlashes(prefix + more)
  {
    var text := prefix + more;
    if more == "" {
      assert text == prefix;
    } else if text[|text| - 1] == '/' {
      assert text[..|text| - 1] == prefix + more[..|more| - 1];
      TrimmedKeepsPrefix(prefix, more[..|more| - 1]);
    }
  }

  /**
   * A text that is no URL with a path, and does not become one (as `http:` does, whose first space becomes the host),
   * grows with each selection and does not come back.
   */
  lemma OtherTextsAccumulate(lib: Library, read: string -> KibanaUrl, text: string, requested: Option<string>)
    requires Selected(requested).Some? && NoUrl(read, text)
    requires NoUrl(read, WithoutSlashes(text) + "/s/" + Selected(requested).value)
    ensures var start, space := WithoutSlashes(text), Selected(requested).value;
            var once := start + "/s/" + space;
            && SpaceUrl(lib, UrlOf(read, text), requested) == Other(once)
            && SpaceUrl(lib, UrlOf(read, once), requested) == Other(WithoutSlashes(once) + "/s/" + space)
            && |WithoutSlashes(once) + "/s/" + space| > |once|
            && SpaceUrl(lib, UrlOf(read, once), None) == Other(WithoutSlashes(once))
            && |WithoutSlashes(once)| > |start|
  {
    var start, space := WithoutSlashes(text), Selected(requested).value;
    TrimmedKeepsPrefix(start + "/s", "/" + space);
    assert start + "/s" + ("/" + space) == start + "/s/" + space;
  }

  /** A setting that is read back, or passed on, selects the same space. */
  lemma SelectionIsStable(value: Option<string>)
    ensures Selected(SpaceSetting(value)) == SpaceSetting(value)
  {
    if value.Some? {
      TrimTwice(value.value);
    } else {
      assert DEFAULT_SPACE[0] == 'e' && DEFAULT_SPACE[5] == 'g';
      assert Trim(DEFAULT_SPACE) == DEFAULT_SPACE;
    }
  }
}
