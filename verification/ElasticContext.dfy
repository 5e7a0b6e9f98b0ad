/** References to services of Elastic CLI contexts: parsing, printing, and usable context names. */
module ElasticContext {
  import opened Text
  import opened Applications

  const CLOUD := "cloud"

  /** One application in an Elastic CLI context. */
  datatype Target = Target(context: Option<string>, application: Application, cloudDeployment: Option<string>)

  datatype ParseError =
    | EmptyContextOrService
    | CloudNeedsDeployment
    | CloudShape
    | UnknownApplication(name: string)
    | UnsupportedApplication(name: string)

  function SplitContextService(value: string): Result<(Option<string>, string), ParseError> {
    match LastIndexOf(value, '.')
    case None => Ok((None, value))
    case Some(i) =>
      if i > 0 && i + 1 < |value| then Ok((Some(value[..i]), value[i + 1..])) else Err(EmptyContextOrService)
  }

  function Parse(value: string): Result<Option<Target>, ParseError> {
    if value == "" || value[0] != '.' then Ok(None)
    else ParseReference(value[1..])
  }

  /** A reference that cannot be a hidden file, a relative path or a Windows path. */
  predicate Ordinary(reference: string) {
    reference != "" && reference[0] != '.' && reference[0] != '/' && '\\' !in reference
  }

  function ParseReference(reference: string): Result<Option<Target>, ParseError> {
    if !Ordinary(reference) then Ok(None)
    else
      var segments := Split(reference, '/');
      if |segments| > 1 then ParseCloudSegments(segments)
      else
        match SplitContextService(segments[0])
        case Err(e) => Err(e)
        case Ok((context, service)) => Direct(context, service)
  }

  function Direct(context: Option<string>, service: string): Result<Option<Target>, ParseError> {
    if service == ES || service == ELASTICSEARCH then Ok(Some(Target(context, Elasticsearch, None)))
    else if service == KB || service == KIBANA then Ok(Some(Target(context, Kibana, None)))
    else if service == CLOUD then Err(CloudNeedsDeployment)
    else Ok(None)
  }

  function ParseCloudSegments(segments: seq<string>): Result<Option<Target>, ParseError>
    requires |segments| > 1
  {
    match SplitContextService(segments[0])
    case Err(e) => Err(e)
    case Ok((context, service)) =>
      if service != CLOUD then Ok(None)
      else if |segments| != 3 || segments[1] == "" || segments[2] == "" then Err(CloudShape)
      else
        match FromName(segments[2])
        case None => Err(UnknownApplication(segments[2]))
        case Some(Elasticsearch) => Ok(Some(Target(context, Elasticsearch, Some(segments[1]))))
        case Some(_) => Err(UnsupportedApplication(segments[2]))
  }

  function Prefix(context: Option<string>): string {
    match context
    case None => ""
    case Some(name) => name + "."
  }

  function Display(target: Target): string {
    var tail :=
      match target.cloudDeployment
      case Some(deployment) => CLOUD + "/" + deployment + "/" + Key(target.application)
      case None => Key(target.application);
    "." + Prefix(target.context) + tail
  }

  // ----- Valid parts -----

  predicate Plain(s: string) {
    s != "" && '/' !in s && '\\' !in s
  }

  predicate ValidContext(context: Option<string>) {
    context.Some? ==> Plain(context.value) && context.value[0] != '.'
  }

  predicate ValidTarget(target: Target) {
    && ValidContext(target.context)
    && match target.cloudDeployment
       case None => target.application.Elasticsearch? || target.application.Kibana?
       case Some(deployment) => target.application.Elasticsearch? && Plain(deployment)
  }

  predicate NamesDirectly(service: string, application: Application) {
    match application
    case Elasticsearch => service == ES || service == ELASTICSEARCH
    case Kibana => service == KB || service == KIBANA
    case _ => false
  }

  /** The text names a valid target, its application by `name`. */
  predicate Spells(value: string, target: Target, name: string) {
    && ValidTarget(target)
    && match target.cloudDeployment
       case None =>
         && NamesDirectly(name, target.application)
         && value == "." + (Prefix(target.context) + name)
       case Some(deployment) =>
         && Plain(name) && FromName(name) == Some(Elasticsearch)
         && value == "." + (Prefix(target.context) + CLOUD + "/" + deployment + "/" + name)
  }

  // ----- Splitting -----

  /** A context and a service split apart again, and only they make up what was split. */
  lemma SplitInvertsPrefix(value: string, context: Option<string>, service: string)
    ensures SplitContextService(value) == Ok((context, service)) && value != "" <==>
              && value == Prefix(context) + service && '.' !in service && service != ""
              && (context.Some? ==> context.value != "")
  {
    if '.' !in service && value == Prefix(context) + service && context.Some? {
      LastIndexOfAfter(context.value, '.', service);
      assert value == context.value + ['.'] + service;
      assert value[..|context.value|] == context.value && value[|context.value| + 1..] == service;
    }
    LastIndexOfNone(value, '.');
    if context.None? {
      assert Prefix(context) + service == service;
    }
    match LastIndexOf(value, '.')
    case None =>
      forall name: string
        ensures value != name + "." + service
      {
        assert (name + "." + service)[|name|] == '.';
      }
    case Some(i) =>
      assert value == value[..i] + "." + value[i + 1..];
  }

  lemma SplitWithout(s: string, c: char)
    ensures |Split(s, c)| == 1 <==> c !in s
    ensures c !in s ==> Split(s, c) == [s]
  {
    match IndexOf(s, c)
    case None =>
    case Some(i) =>
      assert s[i] == c;
  }

  lemma SplitTwo(b: string, c: string)
    requires '/' !in b && '/' !in c
    ensures Split(b + ['/'] + c, '/') == [b, c]
  {
    SplitFirst(b, '/', c);
    SplitWithout(c, '/');
    assert [b] + [c] == [b, c];
  }

  lemma SplitThree(a: string, b: string, c: string)
    requires '/' !in a && '/' !in b && '/' !in c
    ensures Split(a + "/" + b + "/" + c, '/') == [a, b, c]
  {
    var rest := b + ['/'] + c;
    SplitTwo(b, c);
    SplitFirst(a, '/', rest);
    assert a + "/" + b + "/" + c == a + ['/'] + rest;
    assert [a] + [b, c] == [a, b, c];
  }

  lemma JoinOfThree(a: string, b: string, c: string)
    ensures Join([a, b, c], '/') == a + ['/'] + (b + ['/'] + c)
  {
    assert [a, b, c][1..] == [b, c] && [b, c][1..] == [c];
    assert Join([c], '/') == c;
    assert Join([b, c], '/') == b + ['/'] + c;
  }

  predicate DotFree(name: string) {
    Plain(name) && '.' !in name
  }

  lemma ServiceNames()
    ensures DotFree(ES) && DotFree(ELASTICSEARCH) && DotFree(KB) && DotFree(KIBANA) && DotFree(CLOUD)
    ensures CLOUD != ES && CLOUD != ELASTICSEARCH && CLOUD != KB && CLOUD != KIBANA
    ensures |CLOUD| == 5
  {
    NamesDiffer();
    assert |CLOUD| == 5 && CLOUD[0] == 'c';
  }

  /** A valid context in front of a service changes none of the tests on whole references. */
  lemma PrefixedIsOrdinary(context: Option<string>, service: string)
    requires ValidContext(context)
    ensures Ordinary(service) ==> Ordinary(Prefix(context) + service)
    ensures '/' in Prefix(context) + service <==> '/' in service
  {
    if context.None? {
      assert Prefix(context) + service == service;
    }
  }

  lemma OrdinaryPrefix(context: Option<string>, service: string)
    requires Ordinary(Prefix(context) + service) && '/' !in Prefix(context)
    ensures ValidContext(context) && '\\' !in service
  {
    if context.Some? {
      var reference := Prefix(context) + service;
      assert reference[0] == Prefix(context)[0];
      assert context.value != "" ==> reference[0] == context.value[0];
      assert forall c <- context.value :: c in reference;
    }
  }

  // ----- The accepted texts -----

  lemma SpelledDirectly(target: Target, service: string)
    requires ValidTarget(target) && target.cloudDeployment.None? && NamesDirectly(service, target.application)
    ensures ParseReference(Prefix(target.context) + service) == Ok(Some(target))
  {
    ServiceNames();
    var reference := Prefix(target.context) + service;
    PrefixedIsOrdinary(target.context, service);
    SplitWithout(reference, '/');
    SplitInvertsPrefix(reference, target.context, service);
    DirectNames(target.context, service, target.application);
  }

  lemma DirectNames(context: Option<string>, service: string, application: Application)
    ensures Direct(context, service) == Ok(Some(Target(context, application, None))) <==>
              NamesDirectly(service, application)
  {
    NamesDiffer();
    ServiceNames();
  }

  lemma SpelledInTheCloud(context: Option<string>, deployment: string, name: string)
    requires ValidContext(context) && Plain(deployment) && Plain(name) && FromName(name) == Some(Elasticsearch)
    ensures ParseReference(Prefix(context) + CLOUD + "/" + deployment + "/" + name)
         == Ok(Some(Target(context, Elasticsearch, Some(deployment))))
  {
    ServiceNames();
    var base := Prefix(context) + CLOUD;
    PrefixedIsOrdinary(context, CLOUD);
    var reference := base + "/" + deployment + "/" + name;
    assert reference[0] == base[0];
    SplitThree(base, deployment, name);
    SplitInvertsPrefix(base, context, CLOUD);
  }

  lemma DirectPieces(reference: string, target: Target) returns (context: Option<string>, service: string)
    requires ParseReference(reference) == Ok(Some(target)) && '/' !in reference
    ensures Ordinary(reference) && SplitContextService(reference) == Ok((context, service))
    ensures Direct(context, service) == Ok(Some(target))
  {
    SplitWithout(reference, '/');
    context := SplitContextService(reference).value.0;
    service := SplitContextService(reference).value.1;
  }

  lemma NamedDirectly(context: Option<string>, service: string, target: Target)
    requires Direct(context, service) == Ok(Some(target))
    ensures target.context == context && target.cloudDeployment.None?
    ensures NamesDirectly(service, target.application)
  {
    DirectNames(context, service, target.application);
  }

  lemma ContextIsValid(reference: string, context: Option<string>, service: string)
    requires Ordinary(reference) && '/' !in reference && reference == Prefix(context) + service
    ensures ValidContext(context)
  {
    assert forall c <- Prefix(context) :: c in reference;
    OrdinaryPrefix(context, service);
  }

  lemma ParsedDirectly(reference: string, target: Target) returns (service: string)
    requires ParseReference(reference) == Ok(Some(target)) && '/' !in reference
    ensures ValidTarget(target) && target.cloudDeployment.None? && NamesDirectly(service, target.application)
    ensures reference == Prefix(target.context) + service
  {
    var context;
    context, service := DirectPieces(reference, target);
    NamedDirectly(context, service, target);
    SplitInvertsPrefix(reference, context, service);
    ContextIsValid(reference, context, service);
  }

  lemma CloudPieces(reference: string, target: Target) returns (deployment: string, name: string)
    requires ParseReference(reference) == Ok(Some(target)) && |Split(reference, '/')| > 1
    ensures target == Target(target.context, Elasticsearch, Some(deployment))
    ensures FromName(name) == Some(Elasticsearch) && deployment != "" && name != ""
    ensures SplitContextService(Split(reference, '/')[0]) == Ok((target.context, CLOUD))
    ensures Split(reference, '/') == [Split(reference, '/')[0], deployment, name]
  {
    deployment, name := Split(reference, '/')[1], Split(reference, '/')[2];
  }

  lemma PartsOfPlain(a: string, b: string)
    requires '\\' !in a + b
    ensures '\\' !in a && '\\' !in b
  {
    assert forall c <- a :: c in a + b;
    assert forall c <- b :: c in a + b;
  }

  lemma ParsedInTheCloud(reference: string, target: Target) returns (deployment: string, name: string)
    requires ParseReference(reference) == Ok(Some(target)) && |Split(reference, '/')| > 1
    ensures ValidTarget(target) && target.cloudDeployment == Some(deployment)
    ensures Plain(name) && FromName(name) == Some(Elasticsearch)
    ensures reference == Prefix(target.context) + CLOUD + "/" + deployment + "/" + name
  {
    deployment, name := CloudPieces(reference, target);
    var base := Split(reference, '/')[0];
    JoinOfSplit(reference, '/');
    assert base in Split(reference, '/');
    assert deployment in [base, deployment, name] && name in [base, deployment, name];
    JoinOfThree(base, deployment, name);
    CloudParts(reference, target.context, base, deployment, name);
  }

  lemma CloudParts(reference: string, context: Option<string>, base: string, deployment: string, name: string)
    requires Ordinary(reference) && reference == base + ['/'] + (deployment + ['/'] + name)
    requires SplitContextService(base) == Ok((context, CLOUD))
    requires '/' !in base && '/' !in deployment && '/' !in name
    ensures ValidContext(context) && '\\' !in deployment && '\\' !in name
    ensures reference == Prefix(context) + CLOUD + "/" + deployment + "/" + name
  {
    ServiceNames();
    SplitInvertsPrefix(base, context, CLOUD);
    var rest := deployment + ['/'] + name;
    PartsOfPlain(base + ['/'], rest);
    PartsOfPlain(deployment + ['/'], name);
    PartsOfPlain(deployment, ['/']);
    assert reference == Prefix(context) + (CLOUD + ['/'] + rest);
    assert '/' !in Prefix(context) by {
      assert forall c <- Prefix(context) :: c in base;
    }
    OrdinaryPrefix(context, CLOUD + ['/'] + rest);
  }

  /**
   * A text parses to a target exactly when it spells that target: a dot, an optional plain context and a
   * dot, and either a name of Elasticsearch or Kibana, or `cloud`, a plain deployment and a name of
   * Elasticsearch in any case.
   */
  lemma ParseExactly(value: string, target: Target)
    ensures Parse(value) == Ok(Some(target)) <==> exists name :: Spells(value, target, name)
  {
    if Parse(value) == Ok(Some(target)) {
      var reference := value[1..];
      assert value == "." + reference;
      SplitWithout(reference, '/');
      if '/' !in reference {
        var name := ParsedDirectly(reference, target);
        assert Spells(value, target, name);
      } else {
        var deployment, name := ParsedInTheCloud(reference, target);
        assert Spells(value, target, name);
      }
    }
    if name :| Spells(value, target, name) {
      SpelledIsParsed(value, target, name);
    }
  }

  lemma SpelledIsParsed(value: string, target: Target, name: string)
    requires Spells(value, target, name)
    ensures Parse(value) == Ok(Some(target))
  {
    var reference := value[1..];
    assert value == "." + reference;
    match target.cloudDeployment
    case None =>
      assert reference == Prefix(target.context) + name;
      SpelledDirectly(target, name);
    case Some(deployment) =>
      assert reference == Prefix(target.context) + CLOUD + "/" + deployment + "/" + name;
      SpelledInTheCloud(target.context, deployment, name);
  }

  /** The targets that parsing returns are exactly the valid ones, and each is read back from its own display. */
  lemma DisplayRoundTrips(target: Target)
    ensures Parse(Display(target)) == Ok(Some(target)) <==> ValidTarget(target)
    ensures ValidTarget(target) <==> exists value :: Parse(value) == Ok(Some(target))
  {
    if ValidTarget(target) {
      DisplaySpells(target);
      SpelledIsParsed(Display(target), target, Key(target.application));
    }
    if value :| Parse(value) == Ok(Some(target)) {
      ParseExactly(value, target);
    }
  }

  lemma DisplaySpells(target: Target)
    requires ValidTarget(target)
    ensures Spells(Display(target), target, Key(target.application))
  {
    ServiceNames();
    KeyIsAName(target.application);
    if target.cloudDeployment.Some? {
      var deployment := target.cloudDeployment.value;
      assert Prefix(target.context) + (CLOUD + "/" + deployment + "/" + ELASTICSEARCH)
          == Prefix(target.context) + CLOUD + "/" + deployment + "/" + ELASTICSEARCH;
    }
  }

  // ----- Output contexts -----

  datatype OutputError = BlankName | NotAReference

  const SUFFIX := ".es"

  function HostReference(context: string): Result<string, OutputError> {
    var reference := "." + context + SUFFIX;
    if Parse(reference) == Ok(Some(Target(Some(context), Elasticsearch, None))) then Ok(reference)
    else Err(NotAReference)
  }

  function NewOutput(context: string): Result<string, OutputError> {
    if Trim(context) == "" then Err(BlankName)
    else
      match HostReference(context)
      case Ok(_) => Ok(context)
      case Err(e) => Err(e)
  }

  predicate NamesAContext(context: string) {
    && (exists k :: 0 <= k < |context| && !IsWhitespace(context[k]))
    && context != "" && context[0] != '.' && '/' !in context && '\\' !in context
  }

  /** Exactly the names that are not blank, do not start with a dot and have no slash of either kind are accepted. */
  lemma OutputAcceptedExactly(context: string)
    ensures NewOutput(context).Ok? <==> NamesAContext(context)
    ensures NewOutput(context).Ok? ==>
              Parse(HostReference(context).value) == Ok(Some(Target(Some(context), Elasticsearch, None)))
  {
    var reference := "." + context + SUFFIX;
    var target := Target(Some(context), Elasticsearch, None);
    TrimOfBlank(context);
    if NamesAContext(context) {
      assert reference == "." + (Prefix(Some(context)) + ES);
      SpelledIsParsed(reference, target, ES);
    }
    if Parse(reference) == Ok(Some(target)) {
      ParseExactly(reference, target);
    }
  }
}
