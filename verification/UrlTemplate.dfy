/** URL templates of hosts: which ones are accepted, and what rendering one means. */
module UrlTemplate {
  import opened Text

  const ID := "id"
  const PRODUCT := "product"

  // ----- Templates as tokens -----

  /** A character of the URL or a placeholder in braces. */
  datatype Token = Letter(c: char) | Placeholder(name: string)

  datatype Tokens = Nil | Cons(head: Token, tail: Tokens)

  predicate BraceFree(s: string) {
    '{' !in s && '}' !in s
  }

  predicate WellFormed(tokens: Tokens) {
    match tokens
    case Nil => true
    case Cons(Letter(c), tail) => c != '{' && c != '}' && WellFormed(tail)
    case Cons(Placeholder(name), tail) => BraceFree(name) && WellFormed(tail)
  }

  predicate Known(name: string) {
    name == ID || name == PRODUCT
  }

  predicate AllKnown(names: seq<string>) {
    forall i | 0 <= i < |names| :: Known(names[i])
  }

  predicate OnlyKnown(tokens: Tokens) {
    match tokens
    case Nil => true
    case Cons(Placeholder(name), tail) => Known(name) && OnlyKnown(tail)
    case Cons(_, tail) => OnlyKnown(tail)
  }

  predicate MentionsId(tokens: Tokens) {
    match tokens
    case Nil => false
    case Cons(head, tail) => head == Placeholder(ID) || MentionsId(tail)
  }

  function TokenText(token: Token): string {
    match token
    case Letter(c) => [c]
    case Placeholder(name) => "{" + name + "}"
  }

  function TextOf(tokens: Tokens): string {
    match tokens
    case Nil => ""
    case Cons(head, tail) => TokenText(head) + TextOf(tail)
  }

  /** The placeholders in order, as the scanner collects them. */
  function Names(tokens: Tokens): seq<string> {
    match tokens
    case Nil => []
    case Cons(Placeholder(name), tail) => [name] + Names(tail)
    case Cons(_, tail) => Names(tail)
  }

  /** All placeholders replaced at once. */
  function Substituted(tokens: Tokens, id: string, product: string): string {
    match tokens
    case Nil => ""
    case Cons(Letter(c), tail) => [c] + Substituted(tail, id, product)
    case Cons(Placeholder(name), tail) => (if name == ID then id else product) + Substituted(tail, id, product)
  }

  // ----- The scanner -----

  datatype ScanError = Nested | Unmatched | Unterminated

  /** The scan from a position outside a placeholder, or inside one whose name so far is `name`. */
  function Scan(rest: string, inside: Option<string>): Result<Tokens, ScanError>
    decreases |rest|
  {
    if rest == "" then (if inside.Some? then Err(Unterminated) else Ok(Nil))
    else
      match (rest[0], inside)
      case ('{', Some(_)) => Err(Nested)
      case ('{', None) => Scan(rest[1..], Some(""))
      case ('}', None) => Err(Unmatched)
      case ('}', Some(name)) => Prefixed(Placeholder(name), Scan(rest[1..], None))
      case (c, Some(name)) => Scan(rest[1..], Some(name + [c]))
      case (c, None) => Prefixed(Letter(c), Scan(rest[1..], None))
  }

  function Prefixed(token: Token, rest: Result<Tokens, ScanError>): Result<Tokens, ScanError> {
    match rest
    case Ok(tokens) => Ok(Cons(token, tokens))
    case Err(e) => Err(e)
  }

  datatype TemplateError = Malformed(error: ScanError) | Unsupported(name: string) | NoId | NotAUrl

  /** The text before a position, given what was scanned of it. */
  function Opened(inside: Option<string>): string {
    match inside
    case None => ""
    case Some(name) => "{" + name
  }

  lemma {:induction false} ScanSound(rest: string, inside: Option<string>)
    requires inside.Some? ==> BraceFree(inside.value)
    ensures var r := Scan(rest, inside);
            r.Ok? ==> WellFormed(r.value) && TextOf(r.value) == Opened(inside) + rest
    decreases |rest|
  {
    if rest != "" {
      var c, tail := rest[0], rest[1..];
      assert rest == [c] + tail;
      match (c, inside)
      case ('{', Some(_)) =>
      case ('{', None) =>
        ScanSound(tail, Some(""));
        assert "{" + "" + tail == rest;
      case ('}', None) =>
      case ('}', Some(name)) =>
        ScanSound(tail, None);
        assert "{" + name + "}" + tail == "{" + name + rest;
      case (_, Some(name)) =>
        ScanSound(tail, Some(name + [c]));
        assert "{" + (name + [c]) + tail == "{" + name + rest;
      case (_, None) =>
        ScanSound(tail, None);
    }
  }

  lemma {:induction false} ScanInside(name: string, read: string, rest: string)
    requires BraceFree(name)
    ensures Scan(name + "}" + rest, Some(read)) == Prefixed(Placeholder(read + name), Scan(rest, None))
    decreases |name|
  {
    var s := name + "}" + rest;
    if name == "" {
      assert s == "}" + rest && s[1..] == rest && read + "" == read;
    } else {
      assert s[1..] == name[1..] + "}" + rest;
      ScanInside(name[1..], read + [name[0]], rest);
      assert read + [name[0]] + name[1..] == read + name;
    }
  }

  lemma PlaceholderText(name: string, rest: string)
    ensures var text := "{" + name + "}" + rest;
            text[0] == '{' && text[1..] == name + "}" + rest
  {
  }

  lemma {:induction false} ScanComplete(tokens: Tokens)
    requires WellFormed(tokens)
    ensures Scan(TextOf(tokens), None) == Ok(tokens)
  {
    match tokens
    case Nil =>
    case Cons(Letter(c), tail) =>
      assert TextOf(tokens)[1..] == TextOf(tail);
      ScanComplete(tail);
    case Cons(Placeholder(name), tail) =>
      PlaceholderText(name, TextOf(tail));
      ScanInside(name, "", TextOf(tail));
      assert "" + name == name;
      ScanComplete(tail);
  }

  /** A template has one reading: scanning inverts printing. */
  lemma ScanInvertsText(template: string, tokens: Tokens)
    ensures Scan(template, None) == Ok(tokens) <==> WellFormed(tokens) && TextOf(tokens) == template
  {
    ScanSound(template, None);
    assert "" + template == template;
    if WellFormed(tokens) && TextOf(tokens) == template {
      ScanComplete(tokens);
    }
  }

  // ----- Rendering -----

  /** `str::replace`: non-overlapping occurrences from the left. */
  function Replace(s: string, pattern: string, value: string): string
    requires pattern != ""
    decreases |s|
  {
    if s == "" then ""
    else if pattern <= s then value + Replace(s[|pattern|..], pattern, value)
    else [s[0]] + Replace(s[1..], pattern, value)
  }

  function InBraces(name: string): (r: string)
    ensures r != "" && r[0] == '{'
  {
    "{" + name + "}"
  }

  function Rendered(template: string, id: string, product: string): string {
    Replace(Replace(template, InBraces(ID), id), InBraces(PRODUCT), product)
  }

  lemma {:induction false} ReplaceSkips(prefix: string, s: string, name: string, value: string)
    requires '{' !in prefix
    ensures Replace(prefix + s, InBraces(name), value) == prefix + Replace(s, InBraces(name), value)
  {
    if prefix == "" {
      assert prefix + s == s;
      assert prefix + Replace(s, InBraces(name), value) == Replace(s, InBraces(name), value);
    } else {
      assert (prefix + s)[1..] == prefix[1..] + s;
      ReplaceSkips(prefix[1..], s, name, value);
    }
  }

  /** A placeholder is found only by its own name. */
  lemma {:induction false} OnlyItsOwnName(name: string, other: string, rest: string)
    requires BraceFree(name) && BraceFree(other)
    ensures name + "}" <= other + "}" + rest <==> name == other
    decreases |name|
  {
    var s := other + "}" + rest;
    if name == "" || other == "" {
      assert (name + "}")[0] == if name == "" then '}' else name[0];
      assert s[0] == if other == "" then '}' else other[0];
      if name == "" && other == "" {
        assert s[..1] == "}";
      }
    } else {
      OnlyItsOwnName(name[1..], other[1..], rest);
      assert (name + "}")[1..] == name[1..] + "}" && s[1..] == other[1..] + "}" + rest;
      PrefixOfTails(name + "}", s);
      assert name == [name[0]] + name[1..] && other == [other[0]] + other[1..];
    }
  }

  lemma PrefixOfTails(p: string, s: string)
    requires p != "" && s != ""
    ensures p <= s <==> p[0] == s[0] && p[1..] <= s[1..]
  {
    if p[0] == s[0] && p[1..] <= s[1..] {
      assert p == [p[0]] + p[1..] && s == [s[0]] + s[1..];
    }
  }

  lemma ReplacePlaceholder(other: string, rest: string, name: string, value: string)
    requires BraceFree(other) && BraceFree(name)
    ensures Replace(InBraces(other) + rest, InBraces(name), value) ==
            (if other == name then value else InBraces(other)) + Replace(rest, InBraces(name), value)
  {
    var s := InBraces(other) + rest;
    var inner := other + "}" + rest;
    assert s == "{" + inner && s[1..] == inner;
    assert InBraces(name)[1..] == name + "}";
    OnlyItsOwnName(name, other, rest);
    PrefixOfTails(InBraces(name), s);
    if other == name {
      assert s[|InBraces(name)|..] == rest;
    } else {
      ReplaceSkips(other + "}", rest, name, value);
      assert "{" + (other + "}") == InBraces(other);
    }
  }

  lemma DifferentNames()
    ensures ID != PRODUCT && BraceFree(ID) && BraceFree(PRODUCT)
  {
    assert |ID| != |PRODUCT|;
  }

  /** The first replacement leaves the other placeholder as it is, and does not look at what it put in. */
  lemma {:induction false} FirstReplacement(tokens: Tokens, id: string)
    requires WellFormed(tokens) && OnlyKnown(tokens)
    ensures Replace(TextOf(tokens), InBraces(ID), id) == Substituted(tokens, id, InBraces(PRODUCT))
  {
    DifferentNames();
    match tokens
    case Nil =>
    case Cons(Letter(c), tail) =>
      FirstReplacement(tail, id);
      assert TextOf(tokens)[1..] == TextOf(tail);
    case Cons(Placeholder(name), tail) =>
      FirstReplacement(tail, id);
      ReplacePlaceholder(name, TextOf(tail), ID, id);
  }

  /** `id` ends in the first `i` characters of the product's name behind an opening brace. */
  predicate Begins(id: string, i: nat) {
    i <= |PRODUCT| && i < |id| && id[|id| - i - 1..] == "{" + PRODUCT[..i]
  }

  /** `id` starts with the name from its `i`-th character on, and the closing brace. */
  predicate Ends(id: string, i: nat) {
    i <= |PRODUCT| && PRODUCT[i..] + "}" <= id
  }

  predicate OccursAt(s: string, k: nat) {
    k <= |s| && InBraces(PRODUCT) <= s[k..]
  }

  /** The second placeholder stands in `id`, or from the end of one `id` over letters to the start of the next. */
  predicate FormsProduct(id: string) {
    || (exists k :: 0 <= k < |id| && OccursAt(id, k))
    || (exists i, j :: 0 <= i <= j <= |PRODUCT| && Begins(id, i) && Ends(id, j))
  }

  /** What completes a placeholder that `id` began is letters and another `id`. */
  lemma {:induction false} CompletedById(tokens: Tokens, id: string, i: nat) returns (j: nat)
    requires WellFormed(tokens) && OnlyKnown(tokens) && '{' in id
    requires i <= |PRODUCT| && PRODUCT[i..] + "}" <= Substituted(tokens, id, InBraces(PRODUCT))
    ensures i <= j <= |PRODUCT| && Ends(id, j)
  {
    var wanted, text := PRODUCT[i..] + "}", Substituted(tokens, id, InBraces(PRODUCT));
    NoBraceWanted(i);
    PrefixOfTails(wanted, text);
    match tokens
    case Cons(Letter(c), tail) =>
      assert text[1..] == Substituted(tail, id, InBraces(PRODUCT));
      assert wanted[1..] == PRODUCT[i + 1..] + "}";
      j := CompletedById(tail, id, i + 1);
    case Cons(Placeholder(name), tail) =>
      DifferentNames();
      assert name == ID;
      j := i;
      PrefixWithoutBrace(wanted, id, Substituted(tail, id, InBraces(PRODUCT)));
  }

  lemma PrefixWithoutBrace(prefix: string, text: string, rest: string)
    requires '{' in text && prefix <= text + rest
    ensures '{' in prefix || prefix <= text
  {
    var k :| 0 <= k < |text| && text[k] == '{';
    if |prefix| <= k {
      assert prefix == (text + rest)[..|prefix|] == text[..|prefix|];
    } else {
      assert prefix[k] == (text + rest)[k];
    }
  }

  lemma NoBraceWanted(i: nat)
    requires i <= |PRODUCT|
    ensures '{' !in PRODUCT[i..] + "}" && '}' !in PRODUCT
    ensures i == |PRODUCT| ==> PRODUCT[i..] + "}" == "}"
  {
  }

  /** A placeholder that starts in an `id`, whatever tokens follow it, is one that the `id` forms. */
  lemma OnlyFormedStarts(tokens: Tokens, id: string, k: nat)
    requires WellFormed(tokens) && OnlyKnown(tokens) && k < |id|
    ensures OccursAt(id + Substituted(tokens, id, InBraces(PRODUCT)), k) ==> FormsProduct(id)
  {
    var rest := Substituted(tokens, id, InBraces(PRODUCT));
    var pattern, text := InBraces(PRODUCT), (id + rest)[k..];
    assert text == id[k..] + rest;
    if |pattern| <= |id| - k {
      OccursInside(id, rest, k);
    } else if pattern <= text {
      assert text[0] == id[k] == '{';
      var i := |id| - k - 1;
      assert id[k..] == text[..i + 1] == pattern[..i + 1] == "{" + PRODUCT[..i];
      assert rest == text[i + 1..];
      assert PRODUCT[i..] + "}" == pattern[i + 1..];
      var j := CompletedById(tokens, id, i);
      assert Begins(id, i) && Ends(id, j);
    }
  }

  lemma OccursInside(text: string, rest: string, k: nat)
    requires k + |InBraces(PRODUCT)| <= |text|
    ensures OccursAt(text + rest, k) <==> OccursAt(text, k)
  {
    assert (text + rest)[k..] == text[k..] + rest;
    var n := |InBraces(PRODUCT)|;
    assert (text[k..] + rest)[..n] == text[k..][..n];
  }

  lemma OccursNext(s: string, k: nat)
    requires s != ""
    ensures OccursAt(s[1..], k) <==> OccursAt(s, k + 1)
  {
    if k < |s| {
      assert s[1..][k..] == s[k + 1..];
    }
  }

  lemma ReplaceSkipsOne(s: string, value: string)
    requires s != "" && !OccursAt(s, 0)
    ensures Replace(s, InBraces(PRODUCT), value) == [s[0]] + Replace(s[1..], InBraces(PRODUCT), value)
  {
    assert s[0..] == s;
  }

  lemma {:induction false} ReplaceSkipsText(text: string, rest: string, value: string)
    requires forall k | 0 <= k < |text| :: !OccursAt(text + rest, k)
    ensures Replace(text + rest, InBraces(PRODUCT), value) == text + Replace(rest, InBraces(PRODUCT), value)
  {
    var s := text + rest;
    if text == "" {
      assert s == rest;
    } else {
      ReplaceSkipsOne(s, value);
      assert s[1..] == text[1..] + rest;
      forall k | 0 <= k < |text[1..]|
        ensures !OccursAt(text[1..] + rest, k)
      {
        OccursNext(s, k);
      }
      ReplaceSkipsText(text[1..], rest, value);
      FirstApart(text, Replace(rest, InBraces(PRODUCT), value));
    }
  }

  lemma FirstApart(text: string, more: string)
    requires text != ""
    ensures [text[0]] + (text[1..] + more) == text + more
  {
  }

  lemma {:induction false} SecondReplacement(tokens: Tokens, id: string, product: string)
    requires WellFormed(tokens) && OnlyKnown(tokens) && !FormsProduct(id)
    ensures Replace(Substituted(tokens, id, InBraces(PRODUCT)), InBraces(PRODUCT), product) ==
            Substituted(tokens, id, product)
  {
    DifferentNames();
    match tokens
    case Nil =>
    case Cons(Letter(c), tail) =>
      SecondReplacement(tail, id, product);
      assert Substituted(tokens, id, InBraces(PRODUCT))[1..] == Substituted(tail, id, InBraces(PRODUCT));
    case Cons(Placeholder(name), tail) =>
      SecondReplacement(tail, id, product);
      if name == ID {
        forall k | 0 <= k < |id|
          ensures !OccursAt(id + Substituted(tail, id, InBraces(PRODUCT)), k)
        {
          OnlyFormedStarts(tail, id, k);
        }
        ReplaceSkipsText(id, Substituted(tail, id, InBraces(PRODUCT)), product);
      } else {
        ReplacePlaceholder(PRODUCT, Substituted(tail, id, InBraces(PRODUCT)), PRODUCT, product);
      }
  }

  lemma {:induction false} ReplaceByItself(s: string, pattern: string)
    requires pattern != ""
    ensures Replace(s, pattern, pattern) == s
    decreases |s|
  {
    if pattern <= s {
      ReplaceByItself(s[|pattern|..], pattern);
      assert s == pattern + s[|pattern|..];
    } else if s != "" {
      ReplaceByItself(s[1..], pattern);
    }
  }

  lemma {:induction false} SubstitutedIsBraceFree(tokens: Tokens, id: string, product: string)
    requires WellFormed(tokens) && BraceFree(id) && BraceFree(product)
    ensures BraceFree(Substituted(tokens, id, product))
  {
    match tokens
    case Nil =>
    case Cons(_, tail) =>
      SubstitutedIsBraceFree(tail, id, product);
  }

  /** Unless the identifier forms the second placeholder, the two replacements in turn are one substitution. */
  lemma RenderedIsSubstituted(tokens: Tokens, id: string, product: string)
    requires WellFormed(tokens) && OnlyKnown(tokens)
    requires product == InBraces(PRODUCT) || !FormsProduct(id)
    ensures Rendered(TextOf(tokens), id, product) == Substituted(tokens, id, product)
    ensures BraceFree(id) && BraceFree(product) ==> BraceFree(Rendered(TextOf(tokens), id, product))
  {
    FirstReplacement(tokens, id);
    if product == InBraces(PRODUCT) {
      ReplaceByItself(Substituted(tokens, id, product), product);
    } else {
      SecondReplacement(tokens, id, product);
    }
    if BraceFree(id) && BraceFree(product) {
      SubstitutedIsBraceFree(tokens, id, product);
    }
  }

  lemma {:induction false} ReplaceLength(s: string, pattern: string, value: string)
    requires pattern != ""
    ensures |value| >= |pattern| ==> |Replace(s, pattern, value)| >= |s|
    ensures |value| <= |pattern| ==> |Replace(s, pattern, value)| <= |s|
    decreases |s|
  {
    if pattern <= s {
      ReplaceLength(s[|pattern|..], pattern, value);
    } else if s != "" {
      ReplaceLength(s[1..], pattern, value);
    }
  }

  /** A replacement that finds something changes the text. */
  lemma {:induction false} ReplaceChanges(s: string, value: string, k: nat)
    requires OccursAt(s, k) && value != InBraces(PRODUCT)
    ensures Replace(s, InBraces(PRODUCT), value) != s
    decreases |s|
  {
    var pattern := InBraces(PRODUCT);
    if pattern <= s {
      var rest := Replace(s[|pattern|..], pattern, value);
      ReplaceLength(s[|pattern|..], pattern, value);
      assert (value + rest)[..|value|] == value && s[..|pattern|] == pattern;
    } else {
      assert s[0..] == s;
      OccursNext(s, k - 1);
      ReplaceChanges(s[1..], value, k - 1);
    }
  }

  function Letters(text: string, tail: Tokens): Tokens {
    if text == "" then tail else Cons(Letter(text[0]), Letters(text[1..], tail))
  }

  lemma {:induction false} LettersAreText(text: string, tail: Tokens, id: string, product: string)
    requires BraceFree(text) && WellFormed(tail) && OnlyKnown(tail)
    ensures WellFormed(Letters(text, tail)) && OnlyKnown(Letters(text, tail))
    ensures MentionsId(Letters(text, tail)) <==> MentionsId(tail)
    ensures Substituted(Letters(text, tail), id, product) == text + Substituted(tail, id, product)
  {
    if text != "" {
      assert text == [text[0]] + text[1..];
      LettersAreText(text[1..], tail, id, product);
      FirstApart(text, Substituted(tail, id, product));
    }
  }

  lemma OccurrenceShows(tokens: Tokens, id: string, product: string, k: nat)
    requires WellFormed(tokens) && OnlyKnown(tokens) && product != InBraces(PRODUCT)
    requires Substituted(tokens, id, InBraces(PRODUCT)) == Substituted(tokens, id, product)
    requires OccursAt(Substituted(tokens, id, product), k)
    ensures Rendered(TextOf(tokens), id, product) != Substituted(tokens, id, product)
  {
    FirstReplacement(tokens, id);
    ReplaceChanges(Substituted(tokens, id, product), product, k);
  }

  lemma LoneId(id: string, product: string)
    ensures var lone := Cons(Placeholder(ID), Nil);
            WellFormed(lone) && OnlyKnown(lone) && MentionsId(lone) && Substituted(lone, id, product) == id
  {
    DifferentNames();
    assert id + "" == id;
  }

  lemma TwoIds(middle: string, id: string, product: string)
    requires BraceFree(middle)
    ensures var tokens := Cons(Placeholder(ID), Letters(middle, Cons(Placeholder(ID), Nil)));
            && WellFormed(tokens) && OnlyKnown(tokens) && MentionsId(tokens)
            && Substituted(tokens, id, product) == id + (middle + id)
  {
    DifferentNames();
    LoneId(id, product);
    LettersAreText(middle, Cons(Placeholder(ID), Nil), id, product);
  }

  /** A scheme and a host, so that what follows is the path of a URL. */
  const HOST_PREFIX := "http://h/"

  function UnderHost(tokens: Tokens): Tokens {
    Letters(HOST_PREFIX, tokens)
  }

  lemma UnderHostText(tokens: Tokens, id: string, product: string)
    requires WellFormed(tokens) && OnlyKnown(tokens)
    ensures WellFormed(UnderHost(tokens)) && OnlyKnown(UnderHost(tokens))
    ensures MentionsId(UnderHost(tokens)) <==> MentionsId(tokens)
    ensures Substituted(UnderHost(tokens), id, product) == HOST_PREFIX + Substituted(tokens, id, product)
  {
    assert BraceFree(HOST_PREFIX);
    LettersAreText(HOST_PREFIX, tokens, id, product);
  }

  lemma OccursLater(prefix: string, s: string, k: nat)
    requires OccursAt(s, k)
    ensures OccursAt(prefix + s, |prefix| + k)
  {
    assert (prefix + s)[|prefix| + k..] == s[k..];
  }

  /** The order of the replacements shows on this template below a host. */
  predicate OrderShows(tokens: Tokens, id: string, product: string) {
    && WellFormed(tokens) && OnlyKnown(tokens) && MentionsId(tokens)
    && Rendered(TextOf(UnderHost(tokens)), id, product) != Substituted(UnderHost(tokens), id, product)
  }

  lemma UnderHostShows(tokens: Tokens, id: string, product: string, k: nat)
    requires WellFormed(tokens) && OnlyKnown(tokens) && MentionsId(tokens) && product != InBraces(PRODUCT)
    requires Substituted(tokens, id, InBraces(PRODUCT)) == Substituted(tokens, id, product)
    requires OccursAt(Substituted(tokens, id, product), k)
    ensures OrderShows(tokens, id, product)
  {
    UnderHostText(tokens, id, product);
    UnderHostText(tokens, id, InBraces(PRODUCT));
    OccursLater(HOST_PREFIX, Substituted(tokens, id, product), k);
    OccurrenceShows(UnderHost(tokens), id, product, |HOST_PREFIX| + k);
  }

  lemma OneIdShows(id: string, product: string, k: nat) returns (tokens: Tokens)
    requires OccursAt(id, k) && product != InBraces(PRODUCT)
    ensures OrderShows(tokens, id, product)
  {
    tokens := Cons(Placeholder(ID), Nil);
    LoneId(id, product);
    LoneId(id, InBraces(PRODUCT));
    UnderHostShows(tokens, id, product, k);
  }

  lemma TwoIdsShow(id: string, product: string, i: nat, j: nat) returns (tokens: Tokens)
    requires i <= j <= |PRODUCT| && Begins(id, i) && Ends(id, j) && product != InBraces(PRODUCT)
    ensures OrderShows(tokens, id, product)
  {
    tokens := Cons(Placeholder(ID), Letters(PRODUCT[i..j], Cons(Placeholder(ID), Nil)));
    TwoIds(PRODUCT[i..j], id, product);
    TwoIds(PRODUCT[i..j], id, InBraces(PRODUCT));
    ProductBetween(id, i, j);
    UnderHostShows(tokens, id, product, |id| - i - 1);
  }

  lemma FormedProductShows(id: string, product: string) returns (tokens: Tokens)
    requires FormsProduct(id) && product != InBraces(PRODUCT)
    ensures OrderShows(tokens, id, product)
  {
    if k :| 0 <= k < |id| && OccursAt(id, k) {
      tokens := OneIdShows(id, product, k);
    } else {
      var i, j :| 0 <= i <= j <= |PRODUCT| && Begins(id, i) && Ends(id, j);
      tokens := TwoIdsShow(id, product, i, j);
    }
  }

  lemma ProductBetween(id: string, i: nat, j: nat)
    requires i <= j <= |PRODUCT| && Begins(id, i) && Ends(id, j)
    ensures OccursAt(id + (PRODUCT[i..j] + id), |id| - i - 1)
  {
    var k, middle, more := |id| - i - 1, PRODUCT[i..j], id[|PRODUCT[j..]| + 1..];
    assert id == PRODUCT[j..] + "}" + more;
    SuffixApart(id, middle + id, k);
    ThreeParts(PRODUCT, i, j);
    Regrouped(PRODUCT[..i], middle, PRODUCT[j..], more);
    assert (id + (middle + id))[k..] == InBraces(PRODUCT) + more;
  }

  lemma SuffixApart(text: string, rest: string, k: nat)
    requires k <= |text|
    ensures (text + rest)[k..] == text[k..] + rest
  {
  }

  lemma ThreeParts(text: string, i: nat, j: nat)
    requires i <= j <= |text|
    ensures text[..i] + (text[i..j] + text[j..]) == text
  {
  }

  lemma Regrouped(a: string, b: string, c: string, rest: string)
    ensures "{" + a + (b + (c + "}" + rest)) == "{" + (a + (b + c)) + "}" + rest
  {
  }

  /** On every template the replacements in turn are one substitution, exactly for these arguments. */
  lemma RenderedExactly(id: string, product: string)
    ensures (forall tokens | WellFormed(tokens) && OnlyKnown(tokens) ::
               Rendered(TextOf(tokens), id, product) == Substituted(tokens, id, product)) <==>
              product == InBraces(PRODUCT) || !FormsProduct(id)
  {
    if product == InBraces(PRODUCT) || !FormsProduct(id) {
      forall tokens | WellFormed(tokens) && OnlyKnown(tokens)
        ensures Rendered(TextOf(tokens), id, product) == Substituted(tokens, id, product)
      {
        RenderedIsSubstituted(tokens, id, product);
      }
    } else {
      var tokens := FormedProductShows(id, product);
      UnderHostText(tokens, id, product);
      assert OnlyKnown(UnderHost(tokens));
    }
  }

  lemma BraceFreeFormsNothing(id: string)
    requires BraceFree(id)
    ensures !FormsProduct(id)
  {
    forall k | 0 <= k < |id|
      ensures !OccursAt(id, k)
    {
      BraceThere(id, k);
    }
    forall i | 0 <= i <= |PRODUCT|
      ensures !Begins(id, i)
    {
      if i < |id| {
        BraceThere(id, |id| - i - 1);
      }
    }
  }

  lemma BraceThere(id: string, k: nat)
    requires k < |id|
    ensures OccursAt(id, k) || Begins(id, |id| - k - 1) ==> '{' in id
  {
    assert id[k..][0] == id[k];
    assert ("{" + PRODUCT[..0])[0] == '{';
  }

  // ----- Acceptance -----

  const TEST_ID := "test-id"
  const DEFAULT_PRODUCT := "elasticsearch"

  /** The accepted templates, by their grammar. */
  ghost predicate Accepted(urlParses: string -> bool, template: string, tokens: Tokens) {
    && WellFormed(tokens) && TextOf(tokens) == template
    && OnlyKnown(tokens) && MentionsId(tokens)
    && urlParses(Substituted(tokens, TEST_ID, DEFAULT_PRODUCT))
  }

  lemma {:induction false} TextOfLetters(text: string, tail: Tokens)
    ensures TextOf(Letters(text, tail)) == text + TextOf(tail)
  {
    if text == "" {
      assert text + TextOf(tail) == TextOf(tail);
    } else {
      TextOfLetters(text[1..], tail);
      FirstApart(text, TextOf(tail));
    }
  }

  lemma {:induction false} NamesOfLetters(text: string, tail: Tokens)
    ensures Names(Letters(text, tail)) == Names(tail)
  {
    if text != "" {
      NamesOfLetters(text[1..], tail);
    }
  }

  /** The two names that a template may hold. */
  lemma KnownExactly(name: string)
    ensures Known(name) <==> name == "id" || name == "product"
  {
  }

  function Behind(text: string, name: string, tail: Tokens): Tokens {
    Letters(text, Cons(Placeholder(name), tail))
  }

  lemma BehindExactly(text: string, name: string, tail: Tokens, id: string, product: string)
    requires BraceFree(text) && (name == "id" || name == "product") && WellFormed(tail) && OnlyKnown(tail)
    ensures var tokens := Behind(text, name, tail);
            && WellFormed(tokens) && OnlyKnown(tokens) && Names(tokens) == [name] + Names(tail)
            && TextOf(tokens) == text + ("{" + name + "}" + TextOf(tail))
            && Substituted(tokens, id, product) ==
               text + ((if name == "id" then id else product) + Substituted(tail, id, product))
  {
    DifferentNames();
    var rest := Cons(Placeholder(name), tail);
    TextOfLetters(text, rest);
    NamesOfLetters(text, rest);
    LettersAreText(text, rest, id, product);
  }

  /** A template with `{id}` and `{product}` in it: its placeholders, and what it renders to. */
  lemma LiteralTemplate(a: string, b: string, c: string, id: string, product: string)
    requires BraceFree(a) && BraceFree(b) && BraceFree(c) && BraceFree(id)
    ensures var template := a + ("{id}" + (b + ("{product}" + c)));
            && Collected([], template, None) == Ok(["id", "product"])
            && Rendered(template, id, product) == a + (id + (b + (product + c)))
  {
    var last := Letters(c, Nil);
    LettersAreText(c, Nil, id, product);
    TextOfLetters(c, Nil);
    NamesOfLetters(c, Nil);
    assert c + "" == c;
    var second := Behind(b, "product", last);
    BehindExactly(b, "product", last, id, product);
    var tokens := Behind(a, "id", second);
    BehindExactly(a, "id", second, id, product);
    assert "{" + "id" + "}" == "{id}" && "{" + "product" + "}" == "{product}";
    ScanComplete(tokens);
    assert [] + Names(tokens) == ["id"] + (["product"] + []) == ["id", "product"];
    BraceFreeFormsNothing(id);
    RenderedIsSubstituted(tokens, id, product);
  }

  /** Any text after a host is the path of a URL. */
  ghost predicate ReadsPaths(urlParses: string -> bool) {
    forall path: string :: urlParses(HOST_PREFIX + path)
  }

  /** The same over the accepted templates alone. */
  lemma AcceptedRenderedExactly(urlParses: string -> bool, id: string, product: string)
    requires ReadsPaths(urlParses)
    ensures (forall template, tokens | Accepted(urlParses, template, tokens) ::
               Rendered(template, id, product) == Substituted(tokens, id, product)) <==>
              product == InBraces(PRODUCT) || !FormsProduct(id)
  {
    if product == InBraces(PRODUCT) || !FormsProduct(id) {
      forall template, tokens | Accepted(urlParses, template, tokens)
        ensures Rendered(template, id, product) == Substituted(tokens, id, product)
      {
        RenderedIsSubstituted(tokens, id, product);
      }
    } else {
      var tokens := FormedProductShows(id, product);
      UnderHostText(tokens, TEST_ID, DEFAULT_PRODUCT);
      assert Accepted(urlParses, TextOf(UnderHost(tokens)), UnderHost(tokens));
    }
  }

  /** The placeholders that a scan from here on adds to those already found. */
  function Collected(names: seq<string>, rest: string, inside: Option<string>): Result<seq<string>, ScanError> {
    match Scan(rest, inside)
    case Ok(tokens) => Ok(names + Names(tokens))
    case Err(e) => Err(e)
  }

  lemma CollectedStep(names: seq<string>, rest: string, inside: Option<string>)
    requires rest != ""
    ensures var c, tail := rest[0], rest[1..];
            Collected(names, rest, inside) ==
            match (c, inside)
            case ('{', Some(_)) => Err(Nested)
            case ('{', None) => Collected(names, tail, Some(""))
            case ('}', None) => Err(Unmatched)
            case ('}', Some(name)) => Collected(names + [name], tail, None)
            case (_, Some(name)) => Collected(names, tail, Some(name + [c]))
            case (_, None) => Collected(names, tail, None)
  {
    if rest[0] == '}' && inside.Some? && Scan(rest[1..], None).Ok? {
      var more := Names(Scan(rest[1..], None).value);
      assert names + ([inside.value] + more) == names + [inside.value] + more;
    }
  }

  lemma {:induction false} NamesOfTokens(tokens: Tokens)
    ensures OnlyKnown(tokens) <==> AllKnown(Names(tokens))
    ensures MentionsId(tokens) <==> ID in Names(tokens)
  {
    match tokens
    case Nil =>
    case Cons(Letter(_), tail) =>
      NamesOfTokens(tail);
    case Cons(Placeholder(name), tail) =>
      NamesOfTokens(tail);
      AllKnownStep(name, Names(tail));
  }

  lemma AllKnownStep(name: string, names: seq<string>)
    ensures AllKnown([name] + names) <==> Known(name) && AllKnown(names)
  {
    var all := [name] + names;
    assert all[0] == name && forall i | 0 <= i < |names| :: all[i + 1] == names[i];
  }

  method ScanPlaceholders(template: string) returns (r: Result<seq<string>, ScanError>)
    ensures r == Collected([], template, None)
  {
    var placeholders: seq<string>, current: string, inPlaceholder := [], "", false;
    for i := 0 to |template|
      invariant Collected(placeholders, template[i..], if inPlaceholder then Some(current) else None) ==
                Collected([], template, None)
    {
      CollectedStep(placeholders, template[i..], if inPlaceholder then Some(current) else None);
      assert template[i..][1..] == template[i + 1..];
      var ch := template[i];
      if ch == '{' && inPlaceholder {
        return Err(Nested);
      } else if ch == '{' {
        inPlaceholder, current := true, "";
      } else if ch == '}' && !inPlaceholder {
        return Err(Unmatched);
      } else if ch == '}' {
        inPlaceholder := false;
        placeholders := placeholders + [current];
        current := "";
      } else if inPlaceholder {
        current := current + [ch];
      }
    }
    if inPlaceholder {
      return Err(Unterminated);
    }
    assert placeholders + [] == placeholders;
    return Ok(placeholders);
  }

  /** The first placeholder that is not supported, or the lack of an identifier. */
  method CheckPlaceholders(placeholders: seq<string>) returns (error: Option<TemplateError>)
    ensures error.None? <==> ID in placeholders && AllKnown(placeholders)
    ensures error.Some? ==> !error.value.Malformed?
  {
    for i := 0 to |placeholders|
      invariant forall k | 0 <= k < i :: Known(placeholders[k])
    {
      if !Known(placeholders[i]) {
        return Some(Unsupported(placeholders[i]));
      }
    }
    return if ID in placeholders then None else Some(NoId);
  }

  /** Accepts exactly the texts of the grammar that render to a URL. */
  method ValidateUrlTemplate(urlParses: string -> bool, template: string) returns (error: Option<TemplateError>)
    ensures error.None? <==> exists tokens :: Accepted(urlParses, template, tokens)
    ensures error.None? ==> urlParses(Rendered(template, "test-id", "elasticsearch"))
    ensures error.Some? && error.value.Malformed? <==>
            !exists tokens :: WellFormed(tokens) && TextOf(tokens) == template
  {
    AcceptedByScan(urlParses, template);
    HasGrammar(template);
    var scanned := ScanPlaceholders(template);
    match scanned
    case Err(e) =>
      error := Some(Malformed(e));
    case Ok(placeholders) =>
      ghost var names := Names(Scan(template, None).value);
      assert [] + names == names;
      error := CheckPlaceholders(placeholders);
      if error.None? && !urlParses(Rendered(template, TEST_ID, DEFAULT_PRODUCT)) {
        error := Some(NotAUrl);
      }
  }

  lemma HasGrammar(template: string)
    ensures (exists tokens :: WellFormed(tokens) && TextOf(tokens) == template) <==> Scan(template, None).Ok?
  {
    if Scan(template, None).Ok? {
      ScanInvertsText(template, Scan(template, None).value);
    } else {
      forall tokens | WellFormed(tokens)
        ensures TextOf(tokens) != template
      {
        ScanInvertsText(template, tokens);
      }
    }
  }

  /** Acceptance in terms of what the scanner finds. */
  lemma AcceptedByScan(urlParses: string -> bool, template: string)
    ensures (exists tokens :: Accepted(urlParses, template, tokens)) <==>
              var r := Scan(template, None);
              && r.Ok?
              && AllKnown(Names(r.value))
              && ID in Names(r.value)
              && urlParses(Rendered(template, TEST_ID, DEFAULT_PRODUCT))
  {
    forall tokens | WellFormed(tokens) && TextOf(tokens) == template
      ensures Scan(template, None) == Ok(tokens)
    {
      ScanInvertsText(template, tokens);
    }
    var r := Scan(template, None);
    if r.Ok? {
      ScanInvertsText(template, r.value);
      NamesOfTokens(r.value);
      if OnlyKnown(r.value) {
        BraceFreeFormsNothing(TEST_ID);
        RenderedIsSubstituted(r.value, TEST_ID, DEFAULT_PRODUCT);
        assert Accepted(urlParses, template, r.value) <==>
               MentionsId(r.value) && urlParses(Rendered(template, TEST_ID, DEFAULT_PRODUCT));
      }
    }
  }

  /** With braces in the arguments the order of the replacements shows. */
  lemma BracesInArgumentsAreReplacedAgain()
    ensures var tokens := Cons(Placeholder(ID), Nil);
            && Rendered(TextOf(tokens), InBraces(PRODUCT), "kibana") == "kibana"
            && Substituted(tokens, InBraces(PRODUCT), "kibana") == InBraces(PRODUCT)
  {
    var tokens := Cons(Placeholder(ID), Nil);
    assert InBraces(ID) + "" == TextOf(tokens) && InBraces(PRODUCT) + "" == InBraces(PRODUCT);
    ReplacePlaceholder(ID, "", ID, InBraces(PRODUCT));
    ReplacePlaceholder(PRODUCT, "", PRODUCT, "kibana");
  }
}
