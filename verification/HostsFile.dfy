/** Reading and writing `hosts.yml`. */
module HostsFile {
  import opened Text
  import opened KnownHosts

  class HostsYml {
    const rules: Rules
    var file: File

    constructor (rules: Rules, file: File)
      ensures this.rules == rules && this.file == file
    {
      this.rules := rules;
      this.file := file;
    }

    method ParseHostsYml() returns (r: Result<Registry, Error>)
      ensures r == ParseHosts(rules, file)
    {
      match file {
        case Missing => return Ok(map[]);
        case Unreadable => return Err(BadFile);
        case Entries(wires) =>
          var hosts: Registry := map[];
          var names := wires.Keys;
          while names != {}
            invariant names <= wires.Keys
            invariant hosts.Keys == wires.Keys - names
            invariant forall name :: name in hosts ==> ReadHost(rules, wires[name]) == Ok(hosts[name])
            decreases names
          {
            var name :| name in names;
            names := names - {name};
            var read := ReadHost(rules, wires[name]);
            if read.Err? {
              assert !AllRead(rules, wires);
              return Err(BadFile);
            }
            hosts := hosts[name := read.value];
          }
          ReadHostsExactly(rules, wires, hosts);
          return if ClosedViewers(hosts) then Ok(hosts) else Err(BadViewer);
      }
    }

    /** Whether every reserved name is in the file already. */
    method ReservedNamesAllowed(hosts: Registry) returns (allowed: bool)
      ensures allowed == NamesAllowed(rules, hosts, file)
    {
      var parsed := ParseHostsYml();
      var existing := if parsed.Ok? then parsed.value else map[];
      return forall name :: name in hosts && IsReserved(name) ==> name in existing;
    }

    /** `lands` is whether the file can be written. */
    method WriteHostsYml(hosts: Registry, lands: bool) returns (r: Result<(), Error>)
      modifies this`file
      ensures r.Ok? <==> Writable(rules, hosts, old(file)) && lands
      ensures file == if r.Ok? then Written(hosts) else old(file)
    {
      var allowed := ReservedNamesAllowed(hosts);
      if !allowed {
        return Err(ReservedName);
      }
      var prepared: Registry := map[];
      var names := hosts.Keys;
      while names != {}
        invariant names <= hosts.Keys
        invariant prepared.Keys == hosts.Keys - names
        invariant forall name :: name in prepared ==> Prepared(name, hosts[name]) == Ok(prepared[name])
        decreases names
      {
        var name :| name in names;
        names := names - {name};
        var host := Prepared(name, hosts[name]);
        if host.Err? {
          assert !AllPrepared(hosts);
          return Err(host.error);
        }
        prepared := prepared[name := host.value];
      }
      PreparedHostsExactly(hosts, prepared);
      if !ClosedViewers(prepared) {
        return Err(BadViewer);
      }
      if !lands {
        return Err(BadFile);
      }
      file := Entries(Wires(prepared));
      return Ok(());
    }
  }

  lemma PreparedHostsExactly(hosts: Registry, prepared: Registry)
    requires prepared.Keys == hosts.Keys
    requires forall name :: name in prepared ==> Prepared(name, hosts[name]) == Ok(prepared[name])
    ensures AllPrepared(hosts) && PreparedHosts(hosts) == prepared
  {
  }
}
