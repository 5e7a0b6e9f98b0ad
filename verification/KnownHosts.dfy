/** The registry of hosts: its persisted form, and what may be written to it. */
module KnownHosts {
  import opened Text
  import opened Applications
  import opened Credentials
  import opened Roles
  import ElasticContext

  // ----- Hosts -----

  datatype Url = Url(scheme: string, domain: Option<string>, path: string)

  datatype Cloud = GovCloudAdmin | CloudAdmin | PublicCloud

  datatype Host = Host(
    acceptInvalidCerts: bool,
    app: Option<Application>,
    cloud: Option<Cloud>,
    roles: seq<Role>,
    credential: Credential,
    viewer: Option<string>,
    url: Option<Url>,
    urlTemplate: Option<string>,
    attachedViewer: Option<Host>)

  /** What is decided elsewhere: the templates that are accepted, and the names of platforms. */
  datatype Rules = Rules(validTemplate: string -> bool, isPlatform: string -> bool)

  const GOV_DOMAIN := "admin.us-gov-east-1.aws.elastic-cloud.com"
  const ADMIN_DOMAIN := "admin.found.no"
  const API_DOMAIN := "api.elastic-cloud.com"
  const PUBLIC_DOMAIN := "cloud.elastic.co"
  const PROXY := "/proxy"

  function CloudOf(url: Url): Option<Cloud> {
    if url.domain == Some(GOV_DOMAIN) then Some(GovCloudAdmin)
    else if url.domain == Some(ADMIN_DOMAIN) || url.domain == Some(API_DOMAIN) then Some(CloudAdmin)
    else if url.domain == Some(PUBLIC_DOMAIN) then Some(PublicCloud)
    else None
  }

  predicate EndsWith(s: string, suffix: string) {
    |suffix| <= |s| && s[|s| - |suffix|..] == suffix
  }

  function ProxyUrl(url: Url, cloud: Option<Cloud>): Url {
    if cloud.Some? && EndsWith(url.path, PROXY) then url.(path := url.path + "/") else url
  }

  datatype Error =
    | UrlAndTemplate
    | NeitherUrlNorTemplate
    | BadTemplate
    | BadCredential(parts: PartsError)
    | BadApplication
    | BadRole
    | BadTemplateName
    | Plaintext(persist: PersistError)
    | BadViewer
    | ReservedName
    | BadFile

  predicate IsTemplate(host: Host) {
    host.urlTemplate.Some?
  }

  /** A host from its parts: the cloud is recognized, its proxy path completed, and no viewer is attached. */
  function FromParts(rules: Rules, parts: Host): Result<Host, Error> {
    if parts.url.Some? && parts.urlTemplate.Some? then Err(UrlAndTemplate)
    else if parts.url.None? && parts.urlTemplate.None? then Err(NeitherUrlNorTemplate)
    else if parts.urlTemplate.Some? && !rules.validTemplate(parts.urlTemplate.value) then Err(BadTemplate)
    else
      var cloud :=
        match parts.url
        case None => None
        case Some(url) => if parts.cloud.Some? then parts.cloud else CloudOf(url);
      var url :=
        match parts.url
        case None => None
        case Some(url) => Some(ProxyUrl(url, cloud));
      Ok(parts.(cloud := cloud, url := url, attachedViewer := None))
  }

  // ----- The persisted form -----

  /** An entry of `hosts.yml`; absent fields take their defaults. */
  datatype Wire = Wire(
    acceptInvalidCerts: Option<bool>,
    app: Option<string>,
    cloud: Option<Cloud>,
    roles: Option<seq<Role>>,
    secret: Option<string>,
    viewer: Option<string>,
    url: Option<Url>,
    urlTemplate: Option<string>,
    apiKey: Option<string>,
    username: Option<string>,
    password: Option<string>)

  /** Defaults are left out, and of a credential only its reference is written. */
  function ToWire(host: Host): Wire {
    Wire(
      if host.acceptInvalidCerts then Some(true) else None,
      match host.app case None => None case Some(app) => Some(Key(app)),
      host.cloud,
      if host.roles == [Collect] then None else Some(host.roles),
      SecretReference(host.credential),
      host.viewer,
      host.url,
      host.urlTemplate,
      None, None, None)
  }

  const UNKNOWN := "unknown"
  const NONE := "none"

  function AsciiLower(s: string): string {
    seq(|s|, i requires 0 <= i < |s| => if 'A' <= s[i] <= 'Z' then s[i] + 32 as char else s[i])
  }

  /** Platforms are accepted in place of an application and mean none. */
  function ReadApp(rules: Rules, text: Option<string>): Result<Option<Application>, Error> {
    match text
    case None => Ok(None)
    case Some(value) =>
      var trimmed := Trim(value);
      if trimmed == "" || AsciiLower(trimmed) == UNKNOWN || AsciiLower(trimmed) == NONE then Ok(None)
      else if FromName(trimmed).Some? then Ok(FromName(trimmed))
      else if rules.isPlatform(trimmed) then Ok(None)
      else Err(BadApplication)
  }

  function FromWire(rules: Rules, wire: Wire): Result<Host, Error> {
    match AuthFromParts(wire.apiKey, wire.username, wire.password)
    case Err(e) => Err(BadCredential(e))
    case Ok(auth) =>
      match ReadApp(rules, wire.app)
      case Err(e) => Err(e)
      case Ok(app) =>
        FromParts(rules,
                  Host(wire.acceptInvalidCerts.GetOr(false), app, wire.cloud, wire.roles.GetOr([Collect]),
                       FromHostsYml(wire.secret, auth), wire.viewer, wire.url, wire.urlTemplate, None))
  }

  // ----- Validation -----

  function NormalizeRoles(host: Host): Result<Host, Error> {
    var roles := Normalized(host.roles);
    if AllAllowed(host.app, IsTemplate(host), roles) then Ok(host.(roles := roles)) else Err(BadRole)
  }

  predicate IsTemplateName(name: string) {
    && name != "" && 'a' <= name[0] <= 'z'
    && forall k :: 1 <= k < |name| ==> 'a' <= name[k] <= 'z' || '0' <= name[k] <= '9' || name[k] in "+-."
  }

  type Registry = map<string, Host>

  predicate HasViewer(hosts: Registry, host: Host) {
    host.viewer.Some? ==>
      Send in host.roles && host.viewer.value in hosts && View in hosts[host.viewer.value].roles
  }

  predicate ClosedViewers(hosts: Registry) {
    forall name :: name in hosts ==> HasViewer(hosts, hosts[name])
  }

  predicate IsReserved(name: string) {
    ElasticContext.Parse(Trim(name)) != Ok(None)
  }

  /** A host as it is written under a name. */
  function Prepared(name: string, host: Host): Result<Host, Error> {
    match NormalizeRoles(host)
    case Err(e) => Err(e)
    case Ok(normal) =>
      if IsTemplate(normal) && !IsTemplateName(name) then Err(BadTemplateName)
      else
        match Persisted(normal.credential)
        case Err(e) => Err(Plaintext(e))
        case Ok(credential) => Ok(normal.(credential := credential))
  }

  predicate AllPrepared(hosts: Registry) {
    forall name :: name in hosts ==> Prepared(name, hosts[name]).Ok?
  }

  function PreparedHosts(hosts: Registry): Registry
    requires AllPrepared(hosts)
  {
    map name | name in hosts :: Prepared(name, hosts[name]).value
  }

  // ----- The file -----

  datatype File = Missing | Unreadable | Entries(wires: map<string, Wire>)

  predicate AllRead(rules: Rules, wires: map<string, Wire>) {
    forall name :: name in wires ==> ReadHost(rules, wires[name]).Ok?
  }

  function ReadHost(rules: Rules, wire: Wire): Result<Host, Error> {
    match FromWire(rules, wire)
    case Err(e) => Err(e)
    case Ok(host) => NormalizeRoles(host)
  }

  function ReadHosts(rules: Rules, wires: map<string, Wire>): Registry
    requires AllRead(rules, wires)
  {
    map name | name in wires :: ReadHost(rules, wires[name]).value
  }

  function ParseHosts(rules: Rules, file: File): Result<Registry, Error> {
    match file
    case Missing => Ok(map[])
    case Unreadable => Err(BadFile)
    case Entries(wires) =>
      if !AllRead(rules, wires) then Err(BadFile)
      else if !ClosedViewers(ReadHosts(rules, wires)) then Err(BadViewer)
      else Ok(ReadHosts(rules, wires))
  }

  /** Reserved names may stay in the file but not come into it. */
  predicate NamesAllowed(rules: Rules, hosts: Registry, file: File) {
    forall name :: name in hosts && IsReserved(name) ==>
      ParseHosts(rules, file).Ok? && name in ParseHosts(rules, file).value
  }

  function Wires(hosts: Registry): map<string, Wire> {
    map name | name in hosts :: ToWire(hosts[name])
  }

  /** What may be written, and the file it makes. */
  predicate Writable(rules: Rules, hosts: Registry, file: File) {
    NamesAllowed(rules, hosts, file) && AllPrepared(hosts) && ClosedViewers(PreparedHosts(hosts))
  }

  function Written(hosts: Registry): File
    requires AllPrepared(hosts)
  {
    Entries(Wires(PreparedHosts(hosts)))
  }

  // ----- What is accepted -----

  /** What a caller can check of one host before writing it. */
  predicate Acceptable(name: string, host: Host) {
    && AllAllowed(host.app, IsTemplate(host), host.roles)
    && (IsTemplate(host) ==> IsTemplateName(name))
    && (SecretReference(host.credential).Some? || host.credential.NoCredential?)
  }

  lemma PreparedExactly(name: string, host: Host)
    ensures Prepared(name, host).Ok? <==> Acceptable(name, host)
    ensures Prepared(name, host).Ok? ==>
              && Prepared(name, host).value
              == host.(roles := Normalized(host.roles), credential := Persisted(host.credential).value)
  {
    AllowedExactly(host.app, IsTemplate(host), host.roles);
    PersistedResolvesTheSame(host.credential, None);
  }

  /** The viewer links of hosts whose roles are still as they were given. */
  predicate LinksAcceptable(hosts: Registry) {
    forall name :: name in hosts && hosts[name].viewer.Some? ==>
      && Send in hosts[name].roles
      && hosts[name].viewer.value in hosts
      && View in hosts[hosts[name].viewer.value].roles
  }

  lemma NormalHas(roles: seq<Role>, role: Role)
    requires role != Collect
    ensures role in Normalized(roles) <==> role in roles
  {
    NormalizedExactly(roles, Normalized(roles));
  }

  lemma LinksExactly(hosts: Registry)
    requires AllPrepared(hosts)
    ensures ClosedViewers(PreparedHosts(hosts)) <==> LinksAcceptable(hosts)
  {
    var prepared := PreparedHosts(hosts);
    forall name | name in hosts
      ensures prepared[name].viewer == hosts[name].viewer
      ensures Send in prepared[name].roles <==> Send in hosts[name].roles
      ensures View in prepared[name].roles <==> View in hosts[name].roles
    {
      PreparedExactly(name, hosts[name]);
      NormalHas(hosts[name].roles, Send);
      NormalHas(hosts[name].roles, View);
    }
    if ClosedViewers(prepared) {
      forall name | name in hosts && hosts[name].viewer.Some?
        ensures Send in hosts[name].roles && hosts[name].viewer.value in hosts
        ensures View in hosts[hosts[name].viewer.value].roles
      {
        assert HasViewer(prepared, prepared[name]);
      }
    }
  }

  /** Hosts are written exactly when each is acceptable, the viewer links hold and no reserved name is new. */
  lemma WritableExactly(rules: Rules, hosts: Registry, file: File)
    ensures Writable(rules, hosts, file) <==>
              && NamesAllowed(rules, hosts, file)
              && (forall name :: name in hosts ==> Acceptable(name, hosts[name]))
              && LinksAcceptable(hosts)
  {
    forall name | name in hosts
      ensures Prepared(name, hosts[name]).Ok? <==> Acceptable(name, hosts[name])
    {
      PreparedExactly(name, hosts[name]);
    }
    if AllPrepared(hosts) {
      LinksExactly(hosts);
    }
  }

  /** What a saved host is: roles in order and fit for its application, and no plaintext. */
  predicate Clean(name: string, host: Host) {
    && host.roles != [] && StrictlyOrdered(host.roles)
    && AllAllowed(host.app, IsTemplate(host), host.roles)
    && (IsTemplate(host) ==> IsTemplateName(name))
    && (host.credential.NoCredential? || host.credential.Keystore?)
  }

  lemma PreparedIsClean(name: string, host: Host)
    requires Prepared(name, host).Ok?
    ensures Clean(name, Prepared(name, host).value)
  {
    PreparedExactly(name, host);
    AlreadyNormalExactly(host.roles);
    AlreadyNormalExactly(Normalized(host.roles));
    AllowedExactly(host.app, IsTemplate(host), host.roles);
    PersistedResolvesTheSame(host.credential, None);
  }

  lemma CleanIsPrepared(name: string, host: Host)
    ensures Prepared(name, host) == Ok(host) <==> Clean(name, host)
  {
    PreparedExactly(name, host);
    AlreadyNormalExactly(host.roles);
    if Clean(name, host) {
      assert host.(roles := host.roles, credential := host.credential) == host;
    } else if Prepared(name, host).Ok? {
      PreparedIsClean(name, host);
    }
  }

  // ----- Reading back what was written -----

  /** Building the host again from its own parts would change nothing. */
  predicate Canonical(rules: Rules, host: Host) {
    FromParts(rules, host) == Ok(host.(attachedViewer := None))
  }

  /** What a caller can check of a host's fields. */
  predicate CanonicalFields(rules: Rules, host: Host) {
    match (host.url, host.urlTemplate)
    case (Some(url), None) =>
      && (CloudOf(url).Some? ==> host.cloud.Some?)
      && (host.cloud.Some? ==> !EndsWith(url.path, PROXY))
    case (None, Some(template)) => rules.validTemplate(template) && host.cloud.None?
    case _ => false
  }

  lemma LongerPath(url: Url)
    ensures url.(path := url.path + "/") != url
  {
    assert |url.path + "/"| == |url.path| + 1;
  }

  /**
   * A host is canonical exactly when it has one of a URL and an accepted template, no cloud without a URL, a cloud
   * whenever its domain is one, and no path that ends in the bare proxy of a cloud.
   */
  lemma CanonicalExactly(rules: Rules, host: Host)
    ensures Canonical(rules, host) <==> CanonicalFields(rules, host)
  {
    if host.url.Some? {
      LongerPath(host.url.value);
    }
    if Canonical(rules, host) {
      var built := FromParts(rules, host).value;
      assert built.cloud == host.cloud && built.url == host.url;
    }
    if CanonicalFields(rules, host) {
      assert FromParts(rules, host).value == host.(attachedViewer := None);
    }
  }

  /**
   * A host that was put together with the bare proxy path of a cloud is not: reading it back completes the path.
   * The program builds no such host; only `KnownHost::from_url`, which it offers to callers of the library, does.
   */
  lemma BareProxyIsCompleted(rules: Rules, host: Host, url: Url)
    requires host.url == Some(url) && host.urlTemplate.None? && host.cloud.Some? && EndsWith(url.path, PROXY)
    ensures !Canonical(rules, host)
    ensures FromParts(rules, host) == Ok(host.(url := Some(url.(path := url.path + "/")), attachedViewer := None))
  {
    LongerPath(url);
    CanonicalExactly(rules, host);
  }

  lemma ProxyUrlIsStable(url: Url, cloud: Option<Cloud>)
    ensures ProxyUrl(ProxyUrl(url, cloud), cloud) == ProxyUrl(url, cloud)
    ensures CloudOf(ProxyUrl(url, cloud)) == CloudOf(url)
  {
    var path := url.path + "/";
    assert path[|path| - 1] == '/' && PROXY[|PROXY| - 1] == 'y';
    DifferentEnds(path, PROXY);
  }

  lemma DifferentEnds(s: string, suffix: string)
    requires s != "" && suffix != "" && s[|s| - 1] != suffix[|suffix| - 1]
    ensures !EndsWith(s, suffix)
  {
    if |suffix| <= |s| {
      assert s[|s| - |suffix|..][|suffix| - 1] == s[|s| - 1];
    }
  }

  /** Every host that is built from parts, as all hosts that are read are, is canonical. */
  lemma FromPartsIsCanonical(rules: Rules, parts: Host)
    requires FromParts(rules, parts).Ok?
    ensures Canonical(rules, FromParts(rules, parts).value)
    ensures parts.cloud.Some? && parts.url.Some? ==> FromParts(rules, parts).value.cloud == parts.cloud
  {
    var host := FromParts(rules, parts).value;
    if parts.url.Some? {
      ProxyUrlIsStable(parts.url.value, host.cloud);
    }
  }

  lemma ReadAppOfKey(rules: Rules, app: Application)
    ensures ReadApp(rules, Some(Key(app))) == Ok(Some(app))
  {
    KeyIsAName(app);
    KeyIsTrimmed(app);
    assert |UNKNOWN| == 7 && |NONE| == 4;
    assert UNKNOWN[0] == 'u' && NONE[0] == 'n';
    assert AsciiLower(Key(app))[0] == Key(app)[0] by {
      NamesDiffer();
    }
    NamesDiffer();
  }

  lemma KeyIsTrimmed(app: Application)
    ensures Trim(Key(app)) == Key(app) && Key(app) != ""
  {
    var key := Key(app);
    assert key[|key| - 1] in "hat" && key[0] in "ekla";
    TrimStartIsIdentity(key);
  }

  lemma {:induction false} ReadOfWritten(rules: Rules, name: string, host: Host)
    requires Clean(name, host)
    ensures ReadHost(rules, ToWire(host)) == Ok(host.(attachedViewer := None)) <==> Canonical(rules, host)
  {
    var wire := ToWire(host);
    if host.app.Some? {
      ReadAppOfKey(rules, host.app.value);
    }
    var parts := host.(attachedViewer := None);
    assert FromWire(rules, wire) == FromParts(rules, parts);
    assert FromParts(rules, parts) == FromParts(rules, host);
    AlreadyNormalExactly(host.roles);
    if Canonical(rules, host) {
      assert NormalizeRoles(parts) == Ok(parts.(roles := host.roles));
    }
  }

  /** A viewer attached at run time is not part of the registry. */
  function Detached(hosts: Registry): Registry {
    map name | name in hosts :: hosts[name].(attachedViewer := None)
  }

  predicate AllCanonical(rules: Rules, hosts: Registry) {
    forall name :: name in hosts ==> Canonical(rules, hosts[name])
  }

  lemma CanonicalWhenPrepared(rules: Rules, name: string, host: Host)
    requires Prepared(name, host).Ok?
    ensures Canonical(rules, Prepared(name, host).value) <==> Canonical(rules, host)
  {
    PreparedExactly(name, host);
    var prepared := Prepared(name, host).value;
    if Canonical(rules, host) || Canonical(rules, prepared) {
      assert FromParts(rules, host).Ok? && FromParts(rules, prepared).Ok?;
      assert FromParts(rules, prepared).value
          == FromParts(rules, host).value.(roles := prepared.roles, credential := prepared.credential);
    }
  }

  predicate AllClean(hosts: Registry) {
    forall name :: name in hosts ==> Clean(name, hosts[name])
  }

  lemma PreparedHostsAreClean(rules: Rules, hosts: Registry)
    requires AllPrepared(hosts)
    ensures AllClean(PreparedHosts(hosts))
    ensures AllCanonical(rules, PreparedHosts(hosts)) <==> AllCanonical(rules, hosts)
  {
    forall name | name in hosts
      ensures Clean(name, PreparedHosts(hosts)[name])
      ensures Canonical(rules, PreparedHosts(hosts)[name]) <==> Canonical(rules, hosts[name])
    {
      PreparedIsClean(name, hosts[name]);
      CanonicalWhenPrepared(rules, name, hosts[name]);
    }
    assert PreparedHosts(hosts).Keys == hosts.Keys;
  }

  lemma DetachedViewers(hosts: Registry)
    ensures ClosedViewers(Detached(hosts)) <==> ClosedViewers(hosts)
  {
    forall name | name in hosts
      ensures HasViewer(Detached(hosts), Detached(hosts)[name]) <==> HasViewer(hosts, hosts[name])
    {
    }
    if ClosedViewers(Detached(hosts)) {
      forall name | name in hosts
        ensures HasViewer(hosts, hosts[name])
      {
        assert HasViewer(Detached(hosts), Detached(hosts)[name]);
      }
    }
  }

  lemma ReadHostsExactly(rules: Rules, wires: map<string, Wire>, hosts: Registry)
    requires wires.Keys == hosts.Keys
    ensures AllRead(rules, wires) && ReadHosts(rules, wires) == hosts <==>
              forall name :: name in hosts ==> ReadHost(rules, wires[name]) == Ok(hosts[name])
  {
    if forall name :: name in hosts ==> ReadHost(rules, wires[name]) == Ok(hosts[name]) {
      assert AllRead(rules, wires);
      assert ReadHosts(rules, wires) == hosts;
    }
    if AllRead(rules, wires) && ReadHosts(rules, wires) == hosts {
      forall name | name in hosts
        ensures ReadHost(rules, wires[name]) == Ok(hosts[name])
      {
        assert ReadHosts(rules, wires)[name] == hosts[name];
      }
    }
  }

  lemma ReadBackExactly(rules: Rules, hosts: Registry)
    requires AllClean(hosts) && ClosedViewers(hosts)
    ensures ParseHosts(rules, Entries(Wires(hosts))) == Ok(Detached(hosts)) <==> AllCanonical(rules, hosts)
  {
    var wires := Wires(hosts);
    var expected := Detached(hosts);
    forall name | name in hosts
      ensures ReadHost(rules, wires[name]) == Ok(expected[name]) <==> Canonical(rules, hosts[name])
    {
      ReadOfWritten(rules, name, hosts[name]);
    }
    assert wires.Keys == expected.Keys == hosts.Keys;
    ReadHostsExactly(rules, wires, expected);
    DetachedViewers(hosts);
  }

  /**
   * Reading what was written returns the prepared hosts, without viewers attached at run time, exactly when
   * every host is canonical; hosts that were read themselves always are.
   */
  lemma RoundTripsExactly(rules: Rules, hosts: Registry, file: File)
    requires Writable(rules, hosts, file)
    ensures ParseHosts(rules, Written(hosts)) == Ok(Detached(PreparedHosts(hosts))) <==> AllCanonical(rules, hosts)
  {
    PreparedHostsAreClean(rules, hosts);
    ReadBackExactly(rules, PreparedHosts(hosts));
  }

  lemma ReadIsCanonical(rules: Rules, wire: Wire)
    requires ReadHost(rules, wire).Ok?
    ensures Canonical(rules, ReadHost(rules, wire).value)
    ensures ReadHost(rules, wire).value.attachedViewer.None?
  {
    var read := FromWire(rules, wire).value;
    var auth := AuthFromParts(wire.apiKey, wire.username, wire.password).value;
    var parts := Host(wire.acceptInvalidCerts.GetOr(false), ReadApp(rules, wire.app).value, wire.cloud,
                      wire.roles.GetOr([Collect]), FromHostsYml(wire.secret, auth), wire.viewer, wire.url,
                      wire.urlTemplate, None);
    FromPartsIsCanonical(rules, parts);
    var host := ReadHost(rules, wire).value;
    assert FromParts(rules, host) == Ok(FromParts(rules, read).value.(roles := host.roles));
  }

  lemma ReadAt(rules: Rules, wires: map<string, Wire>, name: string)
    requires AllRead(rules, wires) && name in wires
    ensures Canonical(rules, ReadHosts(rules, wires)[name])
    ensures ReadHosts(rules, wires)[name].attachedViewer.None?
  {
    ReadIsCanonical(rules, wires[name]);
  }

  lemma NothingToDetach(hosts: Registry)
    requires forall name :: name in hosts ==> hosts[name].attachedViewer.None?
    ensures Detached(hosts) == hosts
  {
  }

  lemma ReadHostsAreCanonical(rules: Rules, wires: map<string, Wire>)
    requires AllRead(rules, wires)
    ensures AllCanonical(rules, ReadHosts(rules, wires))
    ensures Detached(ReadHosts(rules, wires)) == ReadHosts(rules, wires)
  {
    var hosts := ReadHosts(rules, wires);
    forall name | name in hosts
      ensures Canonical(rules, hosts[name]) && hosts[name].attachedViewer.None?
    {
      ReadAt(rules, wires, name);
    }
    NothingToDetach(hosts);
  }

  lemma ParsedIsCanonical(rules: Rules, file: File)
    requires ParseHosts(rules, file).Ok?
    ensures AllCanonical(rules, ParseHosts(rules, file).value)
    ensures Detached(ParseHosts(rules, file).value) == ParseHosts(rules, file).value
  {
    if file.Entries? {
      ReadHostsAreCanonical(rules, file.wires);
    }
  }

  /** Clean hosts are prepared already. */
  lemma CleanHostsArePrepared(hosts: Registry)
    requires AllClean(hosts)
    ensures AllPrepared(hosts) && PreparedHosts(hosts) == hosts
  {
    forall name | name in hosts
      ensures Prepared(name, hosts[name]) == Ok(hosts[name])
    {
      CleanIsPrepared(name, hosts[name]);
    }
  }

  lemma DetachedIsClean(hosts: Registry)
    requires AllClean(hosts)
    ensures AllClean(Detached(hosts)) && Wires(Detached(hosts)) == Wires(hosts)
  {
  }

  lemma NamesInTheFileAreAllowed(rules: Rules, hosts: Registry, file: File)
    requires ParseHosts(rules, file) == Ok(hosts)
    ensures NamesAllowed(rules, hosts, file)
  {
  }

  /** Writing what was read back from a written file is allowed, and writes the same file. */
  lemma RewritingIsIdentity(rules: Rules, hosts: Registry, file: File)
    requires Writable(rules, hosts, file) && AllCanonical(rules, hosts)
    ensures var written := Written(hosts);
            && ParseHosts(rules, written).Ok?
            && var read := ParseHosts(rules, written).value;
               Writable(rules, read, written) && Written(read) == written
  {
    var prepared := PreparedHosts(hosts);
    PreparedHostsAreClean(rules, hosts);
    ReadBackExactly(rules, prepared);
    DetachedIsClean(prepared);
    CleanHostsArePrepared(Detached(prepared));
    DetachedViewers(prepared);
    NamesInTheFileAreAllowed(rules, Detached(prepared), Written(hosts));
  }

  // ----- What an entry of the file means -----

  /** The plaintext of an entry: an API key, a username and a password, or none. */
  predicate PlaintextIs(wire: Wire, auth: Auth) {
    match auth
    case NoAuth => wire.apiKey.None? && wire.username.None? && wire.password.None?
    case ApiKeyAuth(key) => wire.apiKey == Some(key) && wire.username.None? && wire.password.None?
    case BasicAuth(username, password) =>
      wire.apiKey.None? && wire.username == Some(username) && wire.password == Some(password)
  }

  /** Plaintext that mixes both kinds, or lacks a half. */
  predicate PlaintextIsBad(wire: Wire) {
    if wire.apiKey.Some? then wire.username.Some? || wire.password.Some?
    else wire.username.Some? != wire.password.Some?
  }

  lemma ReadCredential(rules: Rules, wire: Wire)
    ensures PlaintextIsBad(wire) ==> ReadHost(rules, wire).Err? && ReadHost(rules, wire).error.BadCredential?
    ensures ReadHost(rules, wire).Ok? ==>
              && !PlaintextIsBad(wire)
              && ReadHost(rules, wire).value.credential
                 == FromHostsYml(wire.secret, AuthFromParts(wire.apiKey, wire.username, wire.password).value)
  {
  }

  lemma ReadResolvesExactly(rules: Rules, wire: Wire, keystore: Unlocked, auth: Auth)
    requires ReadHost(rules, wire).Ok?
    ensures Resolve(ReadHost(rules, wire).value.credential, keystore) == Ok(auth) <==>
              if wire.secret.Some? then keystore.Some? && StandsFor(keystore.value, wire.secret.value, auth)
              else PlaintextIs(wire, auth)
  {
    ReadCredential(rules, wire);
    if wire.secret.Some? && keystore.Some? {
      SecretExactly(keystore.value, wire.secret.value, auth);
    }
  }

  lemma ReadUnder(rules: Rules, wires: map<string, Wire>, name: string)
    requires name in wires
    ensures ReadHost(rules, wires[name]).Err? ==> ParseHosts(rules, Entries(wires)).Err?
    ensures ParseHosts(rules, Entries(wires)).Ok? ==>
              && name in ParseHosts(rules, Entries(wires)).value
              && ReadHost(rules, wires[name]) == Ok(ParseHosts(rules, Entries(wires)).value[name])
  {
  }

  /**
   * What an entry of a file that could be read resolves to: its secret if it names one, and else its plaintext; without
   * a keystore a secret resolves to nothing. Plaintext that mixes both kinds or lacks a half refuses the file.
   */
  lemma EntryResolvesExactly(rules: Rules, wires: map<string, Wire>, name: string, keystore: Unlocked, auth: Auth)
    requires name in wires
    ensures PlaintextIsBad(wires[name]) ==> ParseHosts(rules, Entries(wires)).Err?
    ensures ParseHosts(rules, Entries(wires)).Ok? ==>
              var hosts, wire := ParseHosts(rules, Entries(wires)).value, wires[name];
              && name in hosts
              && (Resolve(hosts[name].credential, keystore) == Ok(auth) <==>
                    if wire.secret.Some? then keystore.Some? && StandsFor(keystore.value, wire.secret.value, auth)
                    else PlaintextIs(wire, auth))
  {
    ReadCredential(rules, wires[name]);
    ReadUnder(rules, wires, name);
    if ParseHosts(rules, Entries(wires)).Ok? {
      ReadResolvesExactly(rules, wires[name], keystore, auth);
    }
  }

  /** What an entry must hold for its host to be read. */
  predicate EntryIsSound(rules: Rules, wire: Wire) {
    && !PlaintextIsBad(wire)
    && ReadApp(rules, wire.app).Ok?
    && (wire.url.Some? <==> wire.urlTemplate.None?)
    && (wire.urlTemplate.Some? ==> rules.validTemplate(wire.urlTemplate.value))
    && var app, roles := ReadApp(rules, wire.app).value, wire.roles.GetOr([Collect]);
       && (Send in roles ==> app == Some(Elasticsearch) || (app.None? && wire.urlTemplate.Some?))
       && (View in roles ==> app == Some(Kibana) || (app.None? && wire.urlTemplate.Some?))
  }

  lemma ReadsExactly(rules: Rules, wire: Wire)
    ensures ReadHost(rules, wire).Ok? <==> EntryIsSound(rules, wire)
    ensures ReadHost(rules, wire).Ok? ==>
              && ReadHost(rules, wire).value.viewer == wire.viewer
              && ReadHost(rules, wire).value.roles == Normalized(wire.roles.GetOr([Collect]))
  {
    ReadCredential(rules, wire);
    if FromWire(rules, wire).Ok? {
      var host := FromWire(rules, wire).value;
      AllowedExactly(host.app, IsTemplate(host), host.roles);
      AllowedInFields(host);
    }
  }

  /** The viewers that entries name: sent to by a host that may send, and there to be viewed. */
  predicate LinksAreSound(wires: map<string, Wire>) {
    forall name :: name in wires && wires[name].viewer.Some? ==>
      && Send in wires[name].roles.GetOr([])
      && wires[name].viewer.value in wires
      && View in wires[wires[name].viewer.value].roles.GetOr([])
  }

  /** A missing file holds no hosts; any other is read exactly when each entry is sound and every viewer is one. */
  lemma ParsesExactly(rules: Rules, file: File)
    ensures ParseHosts(rules, file).Ok? <==>
              match file
              case Missing => true
              case Unreadable => false
              case Entries(wires) =>
                (forall name :: name in wires ==> EntryIsSound(rules, wires[name])) && LinksAreSound(wires)
    ensures file.Missing? ==> ParseHosts(rules, file) == Ok(map[])
    ensures file.Entries? && ParseHosts(rules, file).Ok? ==> ParseHosts(rules, file).value.Keys == file.wires.Keys
  {
    if file.Entries? {
      forall name | name in file.wires
        ensures ReadHost(rules, file.wires[name]).Ok? <==> EntryIsSound(rules, file.wires[name])
      {
        ReadsExactly(rules, file.wires[name]);
      }
      if AllRead(rules, file.wires) {
        LinksParse(rules, file.wires);
      }
    }
  }

  lemma LinkRoles(rules: Rules, wire: Wire)
    requires ReadHost(rules, wire).Ok?
    ensures ReadHost(rules, wire).value.viewer == wire.viewer
    ensures Send in ReadHost(rules, wire).value.roles <==> Send in wire.roles.GetOr([])
    ensures View in ReadHost(rules, wire).value.roles <==> View in wire.roles.GetOr([])
  {
    ReadsExactly(rules, wire);
    NormalHas(wire.roles.GetOr([Collect]), Send);
    NormalHas(wire.roles.GetOr([Collect]), View);
  }

  lemma LinksParse(rules: Rules, wires: map<string, Wire>)
    requires AllRead(rules, wires)
    ensures ClosedViewers(ReadHosts(rules, wires)) <==> LinksAreSound(wires)
  {
    var hosts := ReadHosts(rules, wires);
    forall name | name in wires
      ensures hosts[name].viewer == wires[name].viewer
      ensures Send in hosts[name].roles <==> Send in wires[name].roles.GetOr([])
      ensures View in hosts[name].roles <==> View in wires[name].roles.GetOr([])
    {
      LinkRoles(rules, wires[name]);
    }
    if ClosedViewers(hosts) {
      forall name | name in wires && wires[name].viewer.Some?
        ensures Send in wires[name].roles.GetOr([]) && wires[name].viewer.value in wires
        ensures View in wires[wires[name].viewer.value].roles.GetOr([])
      {
        assert HasViewer(hosts, hosts[name]);
      }
    }
  }

  /** A reserved name may be written exactly when the file, which can be read, has it already. */
  lemma NamesAllowedExactly(rules: Rules, hosts: Registry, file: File)
    ensures NamesAllowed(rules, hosts, file) <==>
              forall name :: name in hosts && IsReserved(name) ==>
                file.Entries? && name in file.wires && ParseHosts(rules, file).Ok?
  {
    ParsesExactly(rules, file);
  }

  /** An entry without a cloud of its own has the one of its domain, and one with keeps it. */
  lemma CloudExactly(rules: Rules, wires: map<string, Wire>, name: string, cloud: Cloud)
    requires name in wires && ParseHosts(rules, Entries(wires)).Ok?
    ensures var host, wire := ParseHosts(rules, Entries(wires)).value[name], wires[name];
            host.cloud == Some(cloud) <==>
            && wire.url.Some?
            && if wire.cloud.Some? then wire.cloud == Some(cloud)
               else
                 match cloud
                 case GovCloudAdmin => wire.url.value.domain == Some("admin.us-gov-east-1.aws.elastic-cloud.com")
                 case CloudAdmin => wire.url.value.domain in {Some("admin.found.no"), Some("api.elastic-cloud.com")}
                 case PublicCloud => wire.url.value.domain == Some("cloud.elastic.co")
  {
    DomainsDiffer();
    ReadUnder(rules, wires, name);
  }

  lemma DomainsDiffer()
    ensures |GOV_DOMAIN| == 41 && |ADMIN_DOMAIN| == 14 && |API_DOMAIN| == 21 && |PUBLIC_DOMAIN| == 16
  {
  }

  /** The rest of an entry: what is absent has its default, and what is there is kept. */
  lemma FieldsAreRead(rules: Rules, wires: map<string, Wire>, name: string)
    requires name in wires && ParseHosts(rules, Entries(wires)).Ok?
    ensures var host, wire := ParseHosts(rules, Entries(wires)).value[name], wires[name];
            && host.acceptInvalidCerts == (wire.acceptInvalidCerts == Some(true))
            && host.viewer == wire.viewer && host.urlTemplate == wire.urlTemplate
            && (wire.url.Some? <==> host.url.Some?)
            && (wire.url.Some? ==> host.url.value.scheme == wire.url.value.scheme
                                   && host.url.value.domain == wire.url.value.domain)
            && (wire.roles.None? ==> host.roles == [Collect])
            && (wire.roles.Some? ==> host.roles == Normalized(wire.roles.value))
  {
    ReadUnder(rules, wires, name);
    NormalOrder([Collect]);
  }

  /** A cloud's bare proxy path is completed; every other path is kept. */
  lemma PathExactly(rules: Rules, wires: map<string, Wire>, name: string)
    requires name in wires && ParseHosts(rules, Entries(wires)).Ok? && wires[name].url.Some?
    ensures var host, path := ParseHosts(rules, Entries(wires)).value[name], wires[name].url.value.path;
            && host.url.Some?
            && host.url.value.path ==
               (if host.cloud.Some? && |path| >= 6 && path[|path| - 6..] == "/proxy" then path + "/" else path)
  {
    ReadUnder(rules, wires, name);
    assert |PROXY| == 6;
  }

  /** The names that an application goes by; a platform, `unknown`, `none` and a blank mean no application. */
  lemma ApplicationExactly(rules: Rules, text: string)
    ensures var name, app := Lower(Trim(text)), ReadApp(rules, Some(text));
            && (app == Ok(Some(Elasticsearch)) <==> name == "es" || name == "elasticsearch")
            && (app == Ok(Some(Kibana)) <==> name == "kb" || name == "kibana")
            && (app == Ok(Some(Logstash)) <==> name == "ls" || name == "logstash")
            && (app == Ok(Some(Agent)) <==> name == "agent")
            && (Trim(text) == "" || AsciiLower(Trim(text)) in {"unknown", "none"} ==> app == Ok(None))
            && (app == Ok(None) ==> || Trim(text) == "" || AsciiLower(Trim(text)) in {"unknown", "none"}
                                    || rules.isPlatform(Trim(text)))
            && (rules.isPlatform(Trim(text)) ==> app.Ok?)
  {
    AbsentNames(Trim(text));
    NamesDiffer();
  }

  /** No application is called `unknown` or `none`. */
  lemma AbsentNames(s: string)
    ensures AsciiLower(s) in {"unknown", "none"} || s == "" ==> FromName(s).None?
  {
    NamesDiffer();
    assert |"unknown"| == 7 && |"none"| == 4 && "none"[0] == 'n';
    assert |Lower(s)| == |AsciiLower(s)| == |s|;
  }

  /** What of a host keeps it from being written, in terms of its fields and its name. */
  lemma AcceptableExactly(name: string, host: Host)
    ensures Acceptable(name, host) <==>
              && (Send in host.roles ==>
                    host.app == Some(Elasticsearch) || (host.app.None? && host.urlTemplate.Some?))
              && (View in host.roles ==> host.app == Some(Kibana) || (host.app.None? && host.urlTemplate.Some?))
              && (host.urlTemplate.Some? ==>
                    && name != "" && 'a' <= name[0] <= 'z'
                    && forall c <- name :: 'a' <= c <= 'z' || '0' <= c <= '9' || c == '+' || c == '-' || c == '.')
              && match host.credential
                 case Legacy(_, secret) => secret.Some?
                 case Runtime(_) => false
                 case _ => true
  {
    AllowedInFields(host);
    TemplateNameExactly(name);
    PersistedResolvesTheSame(host.credential, None);
  }

  lemma AllowedInFields(host: Host)
    ensures AllAllowed(host.app, IsTemplate(host), host.roles) <==>
              && (Send in host.roles ==>
                    host.app == Some(Elasticsearch) || (host.app.None? && host.urlTemplate.Some?))
              && (View in host.roles ==> host.app == Some(Kibana) || (host.app.None? && host.urlTemplate.Some?))
  {
    if AllAllowed(host.app, IsTemplate(host), host.roles) {
      assert Send in host.roles ==> Allowed(host.app, IsTemplate(host), Send);
      assert View in host.roles ==> Allowed(host.app, IsTemplate(host), View);
    } else {
      var k :| 0 <= k < |host.roles| && !Allowed(host.app, IsTemplate(host), host.roles[k]);
      assert host.roles[k] in host.roles;
    }
  }

  lemma TemplateNameExactly(name: string)
    ensures IsTemplateName(name) <==>
              && name != "" && 'a' <= name[0] <= 'z'
              && forall c <- name :: 'a' <= c <= 'z' || '0' <= c <= '9' || c == '+' || c == '-' || c == '.'
  {
    if IsTemplateName(name) {
      forall c <- name
        ensures 'a' <= c <= 'z' || '0' <= c <= '9' || c == '+' || c == '-' || c == '.'
      {
        var k :| 0 <= k < |name| && name[k] == c;
      }
    } else {
      assert forall k | 0 <= k < |name| :: name[k] in name;
    }
  }

  /** What follows the last dot of the first segment of a reference. */
  function ServiceOf(reference: string): string {
    var first := Split(reference, '/')[0];
    match LastIndexOf(first, '.')
    case None => first
    case Some(i) => first[i + 1..]
  }

  /**
   * A name is reserved for references exactly when it is one, or would be but for its shape: a dot and a reference to
   * no file, whose service is left out, is `cloud`, or is a name of Elasticsearch or Kibana without more segments.
   */
  lemma ReservedExactly(name: string)
    ensures IsReserved(name) <==>
              && var text := Trim(name);
                 && text != "" && text[0] == '.' && ElasticContext.Ordinary(text[1..])
                 && (|| ServiceOf(text[1..]) == "" || ServiceOf(text[1..]) == "cloud"
                     || ('/' !in text[1..] && ServiceOf(text[1..]) in {"es", "elasticsearch", "kb", "kibana"}))
  {
    var text := Trim(name);
    if text != "" && text[0] == '.' && ElasticContext.Ordinary(text[1..]) {
      ReferenceExactly(text[1..]);
    }
  }

  lemma ReferenceExactly(reference: string)
    requires ElasticContext.Ordinary(reference)
    ensures ElasticContext.ParseReference(reference) != Ok(None) <==>
              || ServiceOf(reference) == "" || ServiceOf(reference) == "cloud"
              || ('/' !in reference && ServiceOf(reference) in {"es", "elasticsearch", "kb", "kibana"})
  {
    var segments := Split(reference, '/');
    FirstPiece(reference);
    ElasticContext.SplitWithout(reference, '/');
    ServiceExactly(segments[0]);
    if |segments| > 1 {
      CloudReferenceExactly(segments, ServiceOf(reference));
    } else {
      LoneReferenceExactly(segments[0], ServiceOf(reference));
    }
  }

  /** What the split of a first segment says of the service. */
  predicate SplitsTo(first: string, service: string) {
    match ElasticContext.SplitContextService(first)
    case Err(_) => service == ""
    case Ok(pair) => pair.1 == service && service != ""
  }

  lemma CloudReferenceExactly(segments: seq<string>, service: string)
    requires |segments| > 1 && SplitsTo(segments[0], service)
    ensures ElasticContext.ParseCloudSegments(segments) != Ok(None) <==> service == "" || service == "cloud"
  {
  }

  lemma LoneReferenceExactly(first: string, service: string)
    requires SplitsTo(first, service)
    ensures (match ElasticContext.SplitContextService(first)
             case Err(e) => Err(e)
             case Ok(pair) => ElasticContext.Direct(pair.0, pair.1)) != Ok(None) <==>
              service in {"", "cloud", "es", "elasticsearch", "kb", "kibana"}
  {
  }

  lemma ServiceExactly(first: string)
    requires first != "" && first[0] != '.'
    ensures SplitsTo(first, match LastIndexOf(first, '.') case None => first case Some(i) => first[i + 1..])
  {
    LastIndexOfNone(first, '.');
  }

  lemma FirstPiece(reference: string)
    requires ElasticContext.Ordinary(reference)
    ensures Split(reference, '/')[0] != "" && Split(reference, '/')[0][0] == reference[0]
  {
  }

  // ----- What is written -----

  /** Whatever is written has ordered roles fit for its application and closed links, and holds no plaintext. */
  lemma WrittenIsClean(hosts: Registry, name: string, keystore: Unlocked)
    requires AllPrepared(hosts) && ClosedViewers(PreparedHosts(hosts)) && name in hosts
    ensures var written := PreparedHosts(hosts);
            && Clean(name, written[name]) && HasViewer(written, written[name])
            && Resolve(written[name].credential, keystore) == Resolve(hosts[name].credential, keystore)
            && (!IsTemplate(written[name]) ==>
                  && (Send in written[name].roles ==> written[name].app == Some(Elasticsearch))
                  && (View in written[name].roles ==> written[name].app == Some(Kibana)))
  {
    PreparedIsClean(name, hosts[name]);
    PreparedExactly(name, hosts[name]);
    PersistedResolvesTheSame(hosts[name].credential, keystore);
  }
}
