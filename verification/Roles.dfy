/** The roles of a host and their normal order. */
module Roles {
  import opened Text
  import opened Applications

  datatype Role = Collect | Send | View

  function Rank(role: Role): nat {
    match role
    case Collect => 0
    case Send => 1
    case View => 2
  }

  predicate Ordered(roles: seq<Role>) {
    forall i, j :: 0 <= i < j < |roles| ==> Rank(roles[i]) <= Rank(roles[j])
  }

  predicate StrictlyOrdered(roles: seq<Role>) {
    forall i, j :: 0 <= i < j < |roles| ==> Rank(roles[i]) < Rank(roles[j])
  }

  // ----- Normalization -----

  function Inserted(role: Role, roles: seq<Role>): seq<Role> {
    if roles == [] || Rank(role) <= Rank(roles[0]) then [role] + roles
    else [roles[0]] + Inserted(role, roles[1..])
  }

  /** `sort_by_key`, which is stable. */
  function Sorted(roles: seq<Role>): seq<Role> {
    if roles == [] then [] else Inserted(roles[0], Sorted(roles[1..]))
  }

  /** `dedup`: of equal neighbours the first stays. */
  function Deduplicated(roles: seq<Role>): seq<Role>
    decreases |roles|
  {
    if |roles| < 2 then roles
    else if roles[0] == roles[1] then Deduplicated([roles[0]] + roles[2..])
    else [roles[0]] + Deduplicated(roles[1..])
  }

  function Normalized(roles: seq<Role>): seq<Role> {
    Deduplicated(Sorted(if roles == [] then [Collect] else roles))
  }

  // ----- What normalization yields -----

  lemma {:induction false} InsertedIsOrdered(role: Role, roles: seq<Role>)
    requires Ordered(roles)
    ensures Ordered(Inserted(role, roles))
    ensures forall r :: r in Inserted(role, roles) <==> r == role || r in roles
  {
    if roles != [] && Rank(role) > Rank(roles[0]) {
      var rest := roles[1..];
      InsertedIsOrdered(role, rest);
      assert roles == [roles[0]] + rest;
      var inserted := Inserted(role, rest);
      forall j | 0 <= j < |inserted|
        ensures Rank(roles[0]) <= Rank(inserted[j])
      {
        assert inserted[j] in inserted;
      }
    }
  }

  lemma {:induction false} SortedIsOrdered(roles: seq<Role>)
    ensures Ordered(Sorted(roles))
    ensures forall r :: r in Sorted(roles) <==> r in roles
  {
    if roles != [] {
      SortedIsOrdered(roles[1..]);
      InsertedIsOrdered(roles[0], Sorted(roles[1..]));
      assert roles == [roles[0]] + roles[1..];
    }
  }

  lemma {:induction false} DeduplicatedIsStrict(roles: seq<Role>)
    requires Ordered(roles)
    ensures StrictlyOrdered(Deduplicated(roles))
    ensures forall r :: r in Deduplicated(roles) <==> r in roles
    ensures roles != [] ==> Deduplicated(roles) != [] && Deduplicated(roles)[0] == roles[0]
    decreases |roles|
  {
    if |roles| >= 2 {
      if roles[0] == roles[1] {
        var rest := [roles[0]] + roles[2..];
        assert roles == [roles[0], roles[1]] + roles[2..];
        DeduplicatedIsStrict(rest);
      } else {
        DeduplicatedIsStrict(roles[1..]);
        assert roles == [roles[0]] + roles[1..];
        HeadIsLeast(roles[0], Deduplicated(roles[1..]));
      }
    }
  }

  lemma HeadIsLeast(head: Role, tail: seq<Role>)
    requires StrictlyOrdered(tail) && tail != [] && Rank(head) <= Rank(tail[0]) && head != tail[0]
    ensures StrictlyOrdered([head] + tail)
  {
  }

  /** Strictly ordered lists with the same roles are the same list. */
  lemma {:induction false} StrictListsAreEqual(a: seq<Role>, b: seq<Role>)
    requires StrictlyOrdered(a) && StrictlyOrdered(b)
    requires forall r :: r in a <==> r in b
    ensures a == b
    decreases |a|
  {
    if a == [] {
      HasMember(b);
    } else {
      assert a[0] in b && b[0] in a;
      SmallestIsFirst(a, b);
      var c, d := a[1..], b[1..];
      forall r
        ensures r in c <==> r in d
      {
        InTail(a, r);
        InTail(b, r);
      }
      StrictListsAreEqual(c, d);
    }
  }

  lemma HasMember(roles: seq<Role>)
    ensures roles != [] ==> exists role :: role in roles
  {
    if roles != [] {
      assert roles[0] in roles;
    }
  }

  lemma InTail(roles: seq<Role>, role: Role)
    requires StrictlyOrdered(roles) && roles != []
    ensures role in roles[1..] <==> role in roles && role != roles[0]
  {
    assert roles == [roles[0]] + roles[1..];
  }

  lemma SmallestIsFirst(a: seq<Role>, b: seq<Role>)
    requires StrictlyOrdered(a) && StrictlyOrdered(b)
    requires a != [] && b != [] && a[0] in b && b[0] in a
    ensures a[0] == b[0]
  {
    var i :| 0 <= i < |b| && b[i] == a[0];
    var j :| 0 <= j < |a| && a[j] == b[0];
  }

  /** Normal roles are the one strictly ordered list of the roles given, or of `collect` when none is given. */
  lemma NormalizedExactly(roles: seq<Role>, normal: seq<Role>)
    ensures Normalized(roles) == normal <==>
              && StrictlyOrdered(normal)
              && forall r :: r in normal <==> r in roles || (roles == [] && r == Collect)
  {
    var given := if roles == [] then [Collect] else roles;
    SortedIsOrdered(given);
    DeduplicatedIsStrict(Sorted(given));
    if StrictlyOrdered(normal) && forall r :: r in normal <==> r in roles || (roles == [] && r == Collect) {
      StrictListsAreEqual(Normalized(roles), normal);
    }
  }

  /** So exactly the nonempty, strictly ordered lists are normal already. */
  lemma AlreadyNormalExactly(roles: seq<Role>)
    ensures Normalized(roles) == roles <==> roles != [] && StrictlyOrdered(roles)
    ensures Normalized(Normalized(roles)) == Normalized(roles)
    ensures Normalized(roles) != []
  {
    var normal := Normalized(roles);
    NormalizedExactly(roles, normal);
    assert (if roles == [] then Collect else roles[0]) in normal;
    NormalizedExactly(normal, normal);
    NormalizedExactly(roles, roles);
  }

  function Listed(collect: bool, send: bool, view: bool): seq<Role> {
    (if collect then [Collect] else []) + (if send then [Send] else []) + (if view then [View] else [])
  }

  /** Collect comes first, then send, then view, each at most once. */
  lemma NormalOrder(roles: seq<Role>)
    ensures Normalized(roles) == Listed(Collect in roles || roles == [], Send in roles, View in roles)
  {
    var normal := Listed(Collect in roles || roles == [], Send in roles, View in roles);
    ListedExactly(Collect in roles || roles == [], Send in roles, View in roles);
    forall role
      ensures role in normal <==> role in roles || (roles == [] && role == Collect)
    {
      match role
      case Collect =>
      case Send =>
      case View =>
    }
    NormalizedExactly(roles, normal);
  }

  lemma ListedExactly(collect: bool, send: bool, view: bool)
    ensures var roles := Listed(collect, send, view);
            && StrictlyOrdered(roles)
            && (Collect in roles <==> collect) && (Send in roles <==> send) && (View in roles <==> view)
  {
    assert Listed(collect, send, view) ==
           match (collect, send, view)
           case (true, true, true) => [Collect, Send, View]
           case (true, true, false) => [Collect, Send]
           case (true, false, true) => [Collect, View]
           case (true, false, false) => [Collect]
           case (false, true, true) => [Send, View]
           case (false, true, false) => [Send]
           case (false, false, true) => [View]
           case (false, false, false) => [];
  }

  // ----- Which applications have which roles -----

  /** A template chooses its application only when it is used, so it may have any role until then. */
  predicate Allowed(app: Option<Application>, isTemplate: bool, role: Role) {
    match role
    case Collect => true
    case Send => app == Some(Elasticsearch) || (app.None? && isTemplate)
    case View => app == Some(Kibana) || (app.None? && isTemplate)
  }

  predicate AllAllowed(app: Option<Application>, isTemplate: bool, roles: seq<Role>) {
    forall k :: 0 <= k < |roles| ==> Allowed(app, isTemplate, roles[k])
  }

  /** Normalization neither hides a role that is not allowed nor brings one in. */
  lemma AllowedExactly(app: Option<Application>, isTemplate: bool, roles: seq<Role>)
    ensures AllAllowed(app, isTemplate, Normalized(roles)) <==> AllAllowed(app, isTemplate, roles)
  {
    var normal := Normalized(roles);
    NormalizedExactly(roles, normal);
    if AllAllowed(app, isTemplate, normal) {
      forall k | 0 <= k < |roles|
        ensures Allowed(app, isTemplate, roles[k])
      {
        assert roles[k] in normal;
      }
    }
    if AllAllowed(app, isTemplate, roles) {
      forall k | 0 <= k < |normal|
        ensures Allowed(app, isTemplate, normal[k])
      {
        assert normal[k] in normal;
      }
    }
  }
}
