/** Rewriting of relative Markdown links in an agent's answer. */
module Links {
  import opened Text

  /** The first "](" of a text. */
  function FindOpening(s: string): (r: Option<nat>)
    ensures r.Some? ==> r.value + 2 <= |s|
  {
    if |s| < 2 then None
    else if s[0] == ']' && s[1] == '(' then Some(0)
    else
      match FindOpening(s[1..])
      case None => None
      case Some(i) => Some(i + 1)
  }

  /** Nothing before the opening it finds is one. */
  lemma {:induction false} FindOpeningIsFirst(s: string)
    ensures match FindOpening(s)
            case Some(i) => s[i] == ']' && s[i + 1] == '(' && forall k | 0 <= k < i :: s[k] != ']' || s[k + 1] != '('
            case None => forall k | 0 <= k < |s| - 1 :: s[k] != ']' || s[k + 1] != '('
  {
    if |s| >= 2 && !(s[0] == ']' && s[1] == '(') {
      FindOpeningIsFirst(s[1..]);
      forall k | 0 < k < |s| - 1
        ensures s[k] == s[1..][k - 1] && s[k + 1] == s[1..][k]
      {
      }
    }
  }

  /** The path of a target, without the angle brackets that may surround it. */
  function PathOf(target: string): string {
    if |target| >= 2 && target[0] == '<' && target[|target| - 1] == '>' then target[1..|target| - 1] else target
  }

  predicate Relative(target: string) {
    var path := PathOf(target);
    path != "" && path[0] == '/'
  }

  function NewTarget(resolve: string -> string, target: string): string {
    if Relative(target) then resolve(PathOf(target)) else target
  }

  // ----- A message as plain text and link targets -----

  /** Plain text up to and including an opening, the target it opens, a closing parenthesis, and more. */
  datatype Message = End(text: string) | Link(text: string, target: string, rest: Message)

  datatype FirstLink = NoLink | Found(text: string, target: string, rest: string)

  /** The target at the start of `tail` runs to the first closing parenthesis. */
  function LinkFrom(text: string, tail: string): FirstLink {
    match IndexOf(tail, ')')
    case None => NoLink
    case Some(length) => Found(text, tail[..length], tail[length + 1..])
  }

  function SplitLink(message: string): FirstLink {
    match FindOpening(message)
    case None => NoLink
    case Some(start) => LinkFrom(message[..start + 2], message[start + 2..])
  }

  /** A text whose only opening is its end. */
  predicate Opens(text: string) {
    |text| >= 2 && FindOpening(text) == Some(|text| - 2)
  }

  function Joined(text: string, target: string, rest: string): string {
    text + (target + ([')'] + rest))
  }

  lemma {:induction false} OpeningOfPrefix(message: string)
    requires FindOpening(message).Some?
    ensures Opens(message[..FindOpening(message).value + 2])
  {
    if !(message[0] == ']' && message[1] == '(') {
      var i := FindOpening(message[1..]).value;
      OpeningOfPrefix(message[1..]);
      assert message[..i + 3][1..] == message[1..][..i + 2];
    }
  }

  lemma {:induction false} OpeningOfLonger(text: string, tail: string)
    requires Opens(text)
    ensures FindOpening(text + tail) == Some(|text| - 2)
  {
    if !(text[0] == ']' && text[1] == '(') {
      OpeningOfLonger(text[1..], tail);
      assert (text + tail)[1..] == text[1..] + tail;
    }
  }

  /** A message apart at its first link. */
  predicate Apart(message: string, text: string, target: string, rest: string) {
    message == Joined(text, target, rest) && Opens(text) && ')' !in target && |rest| < |message|
  }

  lemma SplitLinkSound(message: string)
    ensures var link := SplitLink(message);
            link.Found? ==> Apart(message, link.text, link.target, link.rest)
  {
    var opening := FindOpening(message);
    if opening.Some? {
      var i := opening.value + 2;
      OpeningOfPrefix(message);
      LinkFromSound(message[..i], message[i..]);
      assert message == message[..i] + message[i..];
    }
  }

  lemma LinkFromSound(text: string, tail: string)
    requires Opens(text)
    ensures var link := LinkFrom(text, tail);
            link.Found? ==> Apart(text + tail, link.text, link.target, link.rest)
  {
    var closing := IndexOf(tail, ')');
    if closing.Some? {
      NothingBeforeIndexOf(tail, ')');
      assert tail == tail[..closing.value] + ([')'] + tail[closing.value + 1..]);
    }
  }

  lemma LinkFromComplete(text: string, target: string, rest: string)
    requires ')' !in target
    ensures LinkFrom(text, target + ([')'] + rest)) == Found(text, target, rest)
  {
    ClosingAfter(target, rest);
    var tail := target + ([')'] + rest);
    assert tail[..|target|] == target && tail[|target| + 1..] == rest;
  }

  lemma SplitLinkComplete(text: string, target: string, rest: string)
    requires Opens(text) && ')' !in target
    ensures SplitLink(Joined(text, target, rest)) == Found(text, target, rest)
  {
    var message, tail := Joined(text, target, rest), target + ([')'] + rest);
    OpeningOfLonger(text, tail);
    SplitLinkAt(message, text, tail);
    LinkFromComplete(text, target, rest);
  }

  lemma SplitLinkAt(message: string, text: string, tail: string)
    requires |text| >= 2 && FindOpening(message) == Some(|text| - 2) && message == text + tail
    ensures SplitLink(message) == LinkFrom(text, tail)
  {
    assert message[..|text|] == text && message[|text|..] == tail;
  }

  lemma ClosingAfter(target: string, rest: string)
    requires ')' !in target
    ensures IndexOf(target + ([')'] + rest), ')') == Some(|target|)
  {
    IndexOfFirst(target, ')', rest);
    assert target + [')'] + rest == target + ([')'] + rest);
  }

  function Parsed(message: string): Message
    decreases |message|
  {
    SplitLinkSound(message);
    match SplitLink(message)
    case NoLink => End(message)
    case Found(text, target, rest) => Link(text, target, Parsed(rest))
  }

  function Source(message: Message): string {
    match message
    case End(text) => text
    case Link(text, target, rest) => Joined(text, target, Source(rest))
  }

  /** The same message with every relative target replaced. */
  function Rendered(resolve: string -> string, message: Message): string {
    match message
    case End(text) => text
    case Link(text, target, rest) => Joined(text, NewTarget(resolve, target), Rendered(resolve, rest))
  }

  function Resolved(resolve: string -> string, message: string): string {
    Rendered(resolve, Parsed(message))
  }

  /** Parsing loses nothing. */
  lemma {:induction false} ParsedIsTheMessage(message: string)
    ensures Source(Parsed(message)) == message
    decreases |message|
  {
    SplitLinkSound(message);
    if SplitLink(message).Found? {
      ParsedIsTheMessage(SplitLink(message).rest);
    }
  }

  /** The loop's own order of work: what is resolved so far goes in front. */
  function Continued(resolve: string -> string, resolved: string, remainder: string): string
    decreases |remainder|
  {
    SplitLinkSound(remainder);
    match SplitLink(remainder)
    case NoLink => resolved + remainder
    case Found(text, target, rest) => Continued(resolve, resolved + text + NewTarget(resolve, target) + ")", rest)
  }

  lemma {:induction false} ContinuedIsResolved(resolve: string -> string, resolved: string, remainder: string)
    ensures Continued(resolve, resolved, remainder) == resolved + Resolved(resolve, remainder)
    decreases |remainder|
  {
    SplitLinkSound(remainder);
    match SplitLink(remainder)
    case NoLink =>
    case Found(text, target, rest) =>
      var link := NewTarget(resolve, target);
      ContinuedIsResolved(resolve, resolved + text + link + ")", rest);
      Regroup(resolved, text, link, Resolved(resolve, rest));
  }

  lemma Regroup(before: string, text: string, link: string, after: string)
    ensures before + Joined(text, link, after) == before + text + link + ")" + after
  {
  }

  /** The loop replaces the relative targets of the message and copies everything else in order. */
  method ResolveRelativeLinks(resolve: string -> string, message: string) returns (resolved: string)
    ensures resolved == Resolved(resolve, message)
  {
    resolved := "";
    var remainder := message;
    var link := SplitLink(remainder);
    while link.Found?
      invariant link == SplitLink(remainder)
      invariant Continued(resolve, resolved, remainder) == Continued(resolve, "", message)
      decreases |remainder|
    {
      SplitLinkSound(remainder);
      resolved := resolved + link.text + NewTarget(resolve, link.target) + ")";
      remainder := link.rest;
      link := SplitLink(remainder);
    }
    resolved := resolved + remainder;
    ContinuedIsResolved(resolve, "", message);
    assert "" + Resolved(resolve, message) == Resolved(resolve, message);
  }

  /** Every link of a parsed message is one, and its end has none. */
  predicate WellFormed(message: Message) {
    match message
    case End(text) => SplitLink(text).NoLink?
    case Link(text, target, rest) => Opens(text) && ')' !in target && WellFormed(rest)
  }

  /** There is one way to read a message: parsing inverts printing on the well-formed ones. */
  lemma {:induction false} ParsingInvertsPrinting(message: Message)
    ensures Parsed(Source(message)) == message <==> WellFormed(message)
  {
    if message.Link? && Opens(message.text) && ')' !in message.target {
      SplitLinkComplete(message.text, message.target, Source(message.rest));
      ParsingInvertsPrinting(message.rest);
    } else if message.Link? {
      SplitLinkSound(Source(message));
    }
  }

  /** A target that is a path, in angle brackets or not, becomes what the path resolves to; any other stays as it is. */
  lemma FirstLinkResolved(resolve: string -> string, text: string, target: string, rest: string)
    requires Opens(text) && ')' !in target
    ensures Resolved(resolve, Joined(text, target, rest)) ==
            text + (if target != "" && target[0] == '/' then resolve(target)
                    else if |target| > 2 && target[0] == '<' && target[1] == '/' && target[|target| - 1] == '>' then
                      resolve(target[1..|target| - 1])
                    else target) + ")" + Resolved(resolve, rest)
  {
    SplitLinkComplete(text, target, rest);
    Regroup("", text, NewTarget(resolve, target), Resolved(resolve, rest));
    var whole := Joined(text, NewTarget(resolve, target), Resolved(resolve, rest));
    assert "" + whole == whole && "" + text == text;
  }

  /** A message without an opening, or without a closing parenthesis behind its first, stays as it is. */
  lemma NothingToResolve(resolve: string -> string, message: string)
    requires (forall k | 0 <= k < |message| - 1 :: message[k] != ']' || message[k + 1] != '(') || ')' !in message
    ensures Resolved(resolve, message) == message
  {
    FindOpeningIsFirst(message);
    if FindOpening(message).Some? {
      var tail := message[FindOpening(message).value + 2..];
      assert forall c <- tail :: c in message;
    }
  }

  /** A path that a link target may name. */
  predicate IsPath(path: string) {
    path != "" && path[0] == '/' && ')' !in path
  }

  /** A resolved link up to its first closing parenthesis: what is read back as the target. */
  function Head(link: string): string {
    match IndexOf(link, ')')
    case None => link
    case Some(i) => link[..i]
  }

  /** What follows that parenthesis: read back as plain text, if it opens no link. */
  function Tail(link: string): string {
    match IndexOf(link, ')')
    case None => ""
    case Some(i) => link[i + 1..]
  }

  /** No link that is resolved from one of the paths contains another one. */
  ghost predicate OneLinkEach(resolve: string -> string, paths: iset<string>) {
    forall path <- paths | IsPath(path) :: FindOpening(Tail(resolve(path))).None?
  }

  /** None of them, as it is read back, is changed by resolving it again. */
  ghost predicate Settles(resolve: string -> string, paths: iset<string>) {
    forall path <- paths | IsPath(path) :: NewTarget(resolve, Head(resolve(path))) == Head(resolve(path))
  }

  /** The relative links of a message name only these paths. */
  ghost predicate Names(message: Message, paths: iset<string>) {
    match message
    case End(_) => true
    case Link(_, target, rest) => (Relative(target) ==> PathOf(target) in paths) && Names(rest, paths)
  }

  lemma HeadAndTail(link: string)
    ensures ')' !in Head(link)
    ensures ')' !in link ==> Head(link) == link
    ensures ')' in link ==> link == Head(link) + [')'] + Tail(link)
  {
    if ')' in link {
      NothingBeforeIndexOf(link, ')');
    }
  }

  /** A text without openings that ends in a closing parenthesis. */
  predicate Inert(prefix: string) {
    prefix != "" && prefix[|prefix| - 1] == ')' && FindOpening(prefix).None?
  }

  lemma {:induction false} OpeningAfterInert(prefix: string, rest: string)
    requires Inert(prefix)
    ensures FindOpening(prefix + rest) ==
            match FindOpening(rest) case None => None case Some(i) => Some(|prefix| + i)
  {
    assert (prefix + rest)[1..] == prefix[1..] + rest;
    if |prefix| > 1 {
      OpeningAfterInert(prefix[1..], rest);
    } else {
      assert prefix[1..] + rest == rest;
    }
  }

  function Behind(prefix: string, link: FirstLink): FirstLink {
    match link
    case NoLink => NoLink
    case Found(text, target, rest) => Found(prefix + text, target, rest)
  }

  /** Links are found behind such a text as they are without it ... */
  lemma SplitAfterInert(prefix: string, rest: string)
    requires Inert(prefix)
    ensures SplitLink(prefix + rest) == Behind(prefix, SplitLink(rest))
  {
    OpeningAfterInert(prefix, rest);
    if FindOpening(rest).Some? {
      var i := FindOpening(rest).value + 2;
      OpeningBehind(prefix, rest, rest[..i], rest[i..]);
    }
  }

  lemma OpeningBehind(prefix: string, rest: string, text: string, tail: string)
    requires |text| >= 2 && rest == text + tail
    requires FindOpening(rest) == Some(|text| - 2) && FindOpening(prefix + rest) == Some(|prefix| + |text| - 2)
    ensures SplitLink(prefix + rest) == Behind(prefix, SplitLink(rest))
  {
    assert prefix + rest == prefix + text + tail;
    SplitLinkAt(rest, text, tail);
    SplitLinkAt(prefix + rest, prefix + text, tail);
    LinkFromBehind(prefix, text, tail);
  }

  lemma LinkFromBehind(prefix: string, text: string, tail: string)
    ensures LinkFrom(prefix + text, tail) == Behind(prefix, LinkFrom(text, tail))
  {
  }

  lemma JoinedAfter(prefix: string, text: string, target: string, rest: string)
    ensures Joined(prefix + text, target, rest) == prefix + Joined(text, target, rest)
  {
  }

  /** ... and it stays in front. */
  lemma InertStays(resolve: string -> string, prefix: string, rest: string)
    requires Inert(prefix)
    ensures Resolved(resolve, prefix + rest) == prefix + Resolved(resolve, rest)
  {
    SplitAfterInert(prefix, rest);
    SplitLinkSound(rest);
    match SplitLink(rest)
    case NoLink =>
    case Found(text, target, more) =>
      JoinedAfter(prefix, text, NewTarget(resolve, target), Resolved(resolve, more));
  }

  lemma {:induction false} InertTail(tail: string)
    requires FindOpening(tail).None?
    ensures Inert(tail + ")")
  {
    if tail != "" {
      InertTail(tail[1..]);
      assert (tail + ")")[1..] == tail[1..] + ")";
    }
  }

  /** Resolving a link that is already there: its head is the target, its tail is text. */
  lemma ResolvedAgain(resolve: string -> string, text: string, link: string, rest: string)
    requires Opens(text) && FindOpening(Tail(link)).None?
    ensures Resolved(resolve, Joined(text, link, rest)) ==
            text + (NewTarget(resolve, Head(link)) + (link[|Head(link)|..] + ([')'] + Resolved(resolve, rest))))
  {
    HeadAndTail(link);
    var head, once := Head(link), Resolved(resolve, rest);
    if ')' in link {
      var tail := Tail(link) + ")";
      JoinedApart(text, head, Tail(link), rest);
      SplitLinkComplete(text, head, tail + rest);
      InertTail(Tail(link));
      InertStays(resolve, tail, rest);
      TailAfter(head, Tail(link), once);
    } else {
      SplitLinkComplete(text, link, rest);
      assert link[|head|..] + ([')'] + once) == [')'] + once;
    }
  }

  lemma JoinedApart(text: string, head: string, tail: string, rest: string)
    ensures Joined(text, head + [')'] + tail, rest) == Joined(text, head, tail + ")" + rest)
  {
  }

  lemma TailAfter(head: string, tail: string, rest: string)
    ensures [')'] + (tail + ")" + rest) == (head + [')'] + tail)[|head|..] + ([')'] + rest)
  {
  }

  lemma {:induction false} ResolvingTwice(resolve: string -> string, paths: iset<string>, message: string)
    requires OneLinkEach(resolve, paths) && Settles(resolve, paths) && Names(Parsed(message), paths)
    ensures Resolved(resolve, Resolved(resolve, message)) == Resolved(resolve, message)
    decreases |message|
  {
    SplitLinkSound(message);
    match SplitLink(message)
    case NoLink =>
    case Found(text, target, rest) =>
      var link, once := NewTarget(resolve, target), Resolved(resolve, rest);
      LinkSettles(resolve, paths, target);
      ResolvingTwice(resolve, paths, rest);
      ResolvedAgain(resolve, text, link, once);
      HeadApart(link, [')'] + once);
  }

  lemma HeadApart(link: string, rest: string)
    ensures |Head(link)| <= |link| && Head(link) + (link[|Head(link)|..] + rest) == link + rest
  {
    assert link[..|Head(link)|] == Head(link);
  }

  lemma LinkSettles(resolve: string -> string, paths: iset<string>, target: string)
    requires OneLinkEach(resolve, paths) && Settles(resolve, paths)
    requires ')' !in target && (Relative(target) ==> PathOf(target) in paths)
    ensures var link := NewTarget(resolve, target);
            FindOpening(Tail(link)).None? && NewTarget(resolve, Head(link)) == Head(link)
  {
    if Relative(target) {
      assert forall c <- PathOf(target) :: c in target;
      assert IsPath(PathOf(target));
    } else {
      HeadAndTail(target);
      assert Tail(target) == "";
    }
  }

  const OPENING := "]("

  ghost predicate Idempotent(resolve: string -> string, paths: iset<string>) {
    forall message | Names(Parsed(message), paths) ::
      Resolved(resolve, Resolved(resolve, message)) == Resolved(resolve, message)
  }

  /**
   For any set of paths whose links bring no openings of their own: resolving each message with these
   paths twice is resolving it once, exactly when what is read back of each link settles.
   */
  lemma ResolvingTwiceExactly(resolve: string -> string, paths: iset<string>)
    requires OneLinkEach(resolve, paths)
    ensures Idempotent(resolve, paths) <==> Settles(resolve, paths)
  {
    if Settles(resolve, paths) {
      forall message | Names(Parsed(message), paths)
        ensures Resolved(resolve, Resolved(resolve, message)) == Resolved(resolve, message)
      {
        ResolvingTwice(resolve, paths, message);
      }
    }
    if Idempotent(resolve, paths) {
      forall path <- paths | IsPath(path)
        ensures NewTarget(resolve, Head(resolve(path))) == Head(resolve(path))
      {
        LoneLinkNames(path, paths);
        LoneLinkSettles(resolve, path);
      }
    }
  }

  lemma LoneLinkNames(path: string, paths: iset<string>)
    requires IsPath(path) && path in paths
    ensures Names(Parsed(Joined(OPENING, path, "")), paths)
  {
    assert Opens(OPENING);
    SplitLinkComplete(OPENING, path, "");
    assert Parsed("") == End("");
    assert Parsed(Joined(OPENING, path, "")) == Link(OPENING, path, End(""));
  }

  lemma LoneLinkSettles(resolve: string -> string, path: string)
    requires IsPath(path) && FindOpening(Tail(resolve(path))).None?
    requires var once := Resolved(resolve, Joined(OPENING, path, "")); Resolved(resolve, once) == once
    ensures NewTarget(resolve, Head(resolve(path))) == Head(resolve(path))
  {
    assert Opens(OPENING);
    assert Resolved(resolve, "") == "";
    SplitLinkComplete(OPENING, path, "");
    var link := resolve(path);
    ResolvedAgain(resolve, OPENING, link, "");
    HeadApart(link, [')'] + "");
    var head, more := Head(link), link[|Head(link)|..] + ([')'] + "");
    SameMiddle(OPENING, NewTarget(resolve, head), head, more);
  }

  lemma SameMiddle(before: string, a: string, b: string, after: string)
    requires before + (a + after) == before + (b + after)
    ensures a == b
  {
    var s, t, n := before + (a + after), before + (b + after), |before|;
    assert |a| == |b|;
    assert s[n..n + |a|] == a && t[n..n + |b|] == b;
  }

  /** Links that start with neither `/` nor `<`, as absolute URLs do, settle. */
  lemma AbsoluteLinksSettle(resolve: string -> string, paths: iset<string>)
    requires forall path <- paths | IsPath(path) ::
               resolve(path) == "" || (resolve(path)[0] != '/' && resolve(path)[0] != '<')
    ensures Settles(resolve, paths)
  {
    forall path <- paths | IsPath(path)
      ensures NewTarget(resolve, Head(resolve(path))) == Head(resolve(path))
    {
      var head := Head(resolve(path));
      HeadApart(resolve(path), "");
      assert head != "" ==> head[0] == resolve(path)[0];
      assert PathOf(head) == head;
    }
  }

  // ----- Paths behind a viewer -----

  /** Nothing opens a link in a text without `](`, and in no part of it. */
  lemma {:induction false} NoOpeningInSuffix(s: string, i: nat)
    requires FindOpening(s).None? && i <= |s|
    ensures FindOpening(s[i..]).None?
  {
    if i == 0 {
      assert s[0..] == s;
    } else if |s| >= 2 {
      NoOpeningInSuffix(s[1..], i - 1);
      assert s[1..][i - 1..] == s[i..];
    }
  }

  lemma {:induction false} NoOpeningInJoined(a: string, b: string)
    requires FindOpening(a).None? && FindOpening(b).None? && b != "" && b[0] != '('
    ensures FindOpening(a + b).None?
  {
    if a == "" {
      assert a + b == b;
    } else {
      NoOpeningInJoined(a[1..], b);
      assert (a + b)[1..] == a[1..] + b;
    }
  }

  lemma NoOpeningInTail(link: string)
    requires FindOpening(link).None?
    ensures FindOpening(Tail(link)).None?
  {
    match IndexOf(link, ')')
    case None =>
    case Some(i) => NoOpeningInSuffix(link, i + 1);
  }

  /** Absolute links without `](`, parentheses in them or not: resolving twice is resolving once. */
  lemma PlainLinksSettle(resolve: string -> string, paths: iset<string>)
    requires forall path <- paths | IsPath(path) :: FindOpening(resolve(path)).None?
    requires forall path <- paths | IsPath(path) ::
               resolve(path) == "" || (resolve(path)[0] != '/' && resolve(path)[0] != '<')
    ensures Idempotent(resolve, paths)
  {
    forall path <- paths | IsPath(path)
      ensures FindOpening(Tail(resolve(path))).None?
    {
      NoOpeningInTail(resolve(path));
    }
    AbsoluteLinksSettle(resolve, paths);
    ResolvingTwiceExactly(resolve, paths);
  }

  function BehindViewer(viewer: string): string -> string {
    path => viewer + path
  }

  /**
   Behind an absolute viewer, parentheses in its path or not: on messages whose relative links hold no `](`
   resolving twice is resolving once.
   */
  lemma ViewerLinksSettle(viewer: string)
    requires FindOpening(viewer).None? && viewer != "" && viewer[0] != '/' && viewer[0] != '<'
    ensures Idempotent(BehindViewer(viewer), iset path: string | FindOpening(path).None?)
  {
    var resolve, paths := BehindViewer(viewer), iset path: string | FindOpening(path).None?;
    forall path <- paths | IsPath(path)
      ensures FindOpening(resolve(path)).None?
    {
      NoOpeningInJoined(viewer, path);
    }
    PlainLinksSettle(resolve, paths);
  }

  lemma LoneResolved(resolve: string -> string, text: string, target: string)
    requires Opens(text) && ')' !in target
    ensures Resolved(resolve, Joined(text, target, "")) == Joined(text, NewTarget(resolve, target), "")
  {
    assert Resolved(resolve, "") == "";
    SplitLinkComplete(text, target, "");
  }

  lemma TargetStays(resolve: string -> string, target: string, rest: string)
    requires ')' !in target && !Relative(target)
    ensures Resolved(resolve, Joined(OPENING, target, rest)) == Joined(OPENING, target, Resolved(resolve, rest))
  {
    assert Opens(OPENING);
    SplitLinkComplete(OPENING, target, rest);
  }

  lemma ParenthesisSplits(viewer: string, v: string, w: string, text: string, b: string)
    requires viewer == v + [')'] + w
    ensures Joined(OPENING, viewer + (text + b), "") == Joined(OPENING, v, Joined(w + text, b, ""))
  {
  }

  lemma InnerResolved(resolve: string -> string, message: string, v: string, inner: string, resolved: string)
    requires message == Joined(OPENING, v, inner) && ')' !in v && !Relative(v)
    requires Resolved(resolve, inner) == resolved
    ensures Resolved(resolve, message) == Joined(OPENING, v, resolved)
  {
    TargetStays(resolve, v, inner);
  }

  lemma PathIsResolved(resolve: string -> string, text: string, path: string)
    requires Opens(text) && IsPath(path)
    ensures Resolved(resolve, Joined(text, path, "")) == Joined(text, resolve(path), "")
  {
    LoneResolved(resolve, text, path);
  }

  /**
   A path with an opening, behind a viewer with a closing parenthesis, brings a link more, which the next round
   resolves: here the law fails.
   */
  lemma OpeningsMultiply(v: string, w: string, text: string, b: string)
    requires ')' !in v && !Relative(v) && Opens(w + text) && IsPath(text + b) && IsPath(b)
    ensures var viewer := v + [')'] + w;
            var resolve, message := BehindViewer(viewer), Joined(OPENING, text + b, "");
            && Resolved(resolve, message) == Joined(OPENING, viewer + (text + b), "")
            && Resolved(resolve, Resolved(resolve, message)) == Joined(OPENING, viewer + (text + (viewer + b)), "")
  {
    var viewer := v + [')'] + w;
    assert Opens(OPENING);
    PathIsResolved(BehindViewer(viewer), OPENING, text + b);
    SecondRound(viewer, v, w, text, b);
  }

  lemma SecondRound(viewer: string, v: string, w: string, text: string, b: string)
    requires viewer == v + [')'] + w && ')' !in v && !Relative(v) && Opens(w + text) && IsPath(b)
    ensures Resolved(BehindViewer(viewer), Joined(OPENING, viewer + (text + b), "")) ==
            Joined(OPENING, viewer + (text + (viewer + b)), "")
  {
    var resolve := BehindViewer(viewer);
    var inner, resolved := Joined(w + text, b, ""), Joined(w + text, resolve(b), "");
    ParenthesisSplits(viewer, v, w, text, b);
    PathIsResolved(resolve, w + text, b);
    InnerResolved(resolve, Joined(OPENING, viewer + (text + b), ""), v, inner, resolved);
    ParenthesisSplits(viewer, v, w, text, resolve(b));
  }
}
