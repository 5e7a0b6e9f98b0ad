/** Replacing a file through a temporary one next to it. */
module AtomicFile {
  import opened Text

  type Files = map<string, string>

  /**
   * What happens during a replacement: `written` characters reach the temporary file, the rename works or not,
   * and the process may be killed before it tidies up. `None` for `written` is a write that fails to open.
   */
  datatype Fate = Fate(written: Option<nat>, flushes: bool, renames: bool, killed: bool)

  datatype Error = NotReplaced

  predicate Completes(files: Files, temp: string, fate: Fate) {
    temp !in files && fate.written.Some? && fate.flushes && fate.renames
  }

  /** The file is either as it was or wholly replaced, and every other file but the temporary one is untouched. */
  method WriteAtomic(files: Files, path: string, temp: string, contents: string, fate: Fate)
    returns (after: Files, r: Result<(), Error>)
    requires temp != path
    ensures r.Ok? <==> Completes(files, temp, fate)
    ensures r.Ok? ==> after == files[path := contents]
    ensures r.Err? && !fate.killed ==> after == files - {temp}
    ensures after - {temp} == if r.Ok? then (files - {temp})[path := contents] else files - {temp}
  {
    after := files;
    r := Err(NotReplaced);
    if temp !in files && fate.written.Some? {
      var n := if fate.flushes || fate.written.value > |contents| then |contents| else fate.written.value;
      after := after[temp := contents[..n]];
      if fate.flushes && fate.renames {
        assert contents[..n] == contents;
        after := (after - {temp})[path := contents];
        r := Ok(());
        assert after == files[path := contents];
      }
    }
    if r.Err? && !fate.killed && temp in after {
      after := after - {temp};
    }
  }
}
