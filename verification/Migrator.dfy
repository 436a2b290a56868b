/** Database migrations. A file's script and its record commit in one transaction; a run
    may crash between any two statements. What a script does to the schema is the
    parameter `exec`, which returns nothing when the script fails. */
module Migrator {
  import opened Listing
  import opened Options

  // ---- files ------------------------------------------------------------

  datatype Entry = Entry(name: string, isDir: bool)

  /** The suffix ".sql" in any letter case. */
  predicate IsScript(name: string) {
    |name| >= 4 && var e := name[|name| - 4..];
                   e[0] == '.' && e[1] in {'s', 'S'} && e[2] in {'q', 'Q'} && e[3] in {'l', 'L'}
  }

  /** The migration files of a directory, in increasing order of their names. */
  method MigrationFiles(entries: seq<Entry>) returns (files: seq<string>)
    ensures Increasing(files)
    ensures forall name :: name in files <==> IsScript(name) && Entry(name, false) in entries
  {
    var names := {};
    for i := 0 to |entries|
      invariant forall name :: name in names <==> IsScript(name) && Entry(name, false) in entries[..i]
    {
      if !entries[i].isDir && IsScript(entries[i].name) {
        names := names + {entries[i].name};
      }
      assert forall e :: e in entries[..i + 1] <==> e in entries[..i] || e == entries[i];
    }
    assert entries[..|entries|] == entries;
    files := SortedKeys(names);
    assert forall name :: name in files <==> name in Elements(files);
  }

  predicate IsLetter(c: char, lower: char) {
    c == lower || (lower >= 'a' && lower <= 'z' && c as int + 32 == lower as int)
  }

  /** A script is a name with an id and the suffix, in whatever case, and the id is what is
      left without it. */
  lemma ScriptIff(name: string)
    ensures IsScript(name) <==>
            exists id: string, e: string :: name == Named(id, e) && |e| == 4 &&
              IsLetter(e[0], '.') && IsLetter(e[1], 's') && IsLetter(e[2], 'q') && IsLetter(e[3], 'l')
    ensures forall id: string, e: string :: name == Named(id, e) && |e| == 4 ==> Stem(name) == id
  {
    if |name| >= 4 {
      var n := |name| - 4;
      var e := name[n..];
      assert name == Named(name[..n], e);
      if IsScript(name) {
        assert IsLetter(e[0], '.') && IsLetter(e[1], 's') && IsLetter(e[2], 'q') && IsLetter(e[3], 'l');
      }
    }
    forall id: string, e: string | name == Named(id, e) && |e| == 4 ensures Stem(name) == id && name[|name| - 4..] == e {
      assert Named(id, e)[..|id|] == id && Named(id, e)[|id|..] == e;
    }
  }

  ghost function Named(id: string, suffix: string): string {
    id + suffix
  }

  /** The migration's id: the file name without its extension. */
  function Stem(file: string): string {
    if |file| >= 4 then file[..|file| - 4] else file
  }

  // ---- records and schema -----------------------------------------------

  predicate Has(recorded: seq<string>, id: string) {
    exists k :: 0 <= k < |recorded| && Stem(recorded[k]) == id
  }

  ghost predicate DistinctIds(recorded: seq<string>) {
    forall i, j :: 0 <= i < j < |recorded| ==> Stem(recorded[i]) != Stem(recorded[j])
  }

  /** The records after running the first n files in order: each file whose id is not
      yet recorded. */
  function Extended(recorded: seq<string>, files: seq<string>, n: nat): seq<string>
    requires n <= |files|
  {
    if n == 0 then recorded
    else
      var r, file := Extended(recorded, files, n - 1), files[n - 1];
      if Has(r, Stem(file)) then r else r + [file]
  }

  /** The schema after executing scripts in order. */
  function Applied<S>(exec: (S, string) -> Option<S>, schema: S, files: seq<string>): Option<S> {
    if files == [] then Some(schema)
    else
      match Applied(exec, schema, files[..|files| - 1])
      case None => None
      case Some(s) => exec(s, files[|files| - 1])
  }

  lemma AppliedOne<S>(exec: (S, string) -> Option<S>, schema: S, files: seq<string>, file: string)
    ensures Applied(exec, schema, files + [file]) ==
            match Applied(exec, schema, files)
            case None => None
            case Some(s) => exec(s, file)
  {
    assert (files + [file])[..|files|] == files;
  }

  lemma HasGrows(recorded: seq<string>, file: string, id: string)
    ensures Has(recorded + [file], id) <==> Has(recorded, id) || Stem(file) == id
  {
    var after := recorded + [file];
    if Has(recorded, id) {
      var k :| 0 <= k < |recorded| && Stem(recorded[k]) == id;
      assert Stem(after[k]) == id;
    }
    if Stem(file) == id { assert Stem(after[|recorded|]) == id; }
  }

  lemma {:induction false} ExtendedHas(recorded: seq<string>, files: seq<string>, n: nat, at: nat)
    requires at < n <= |files|
    ensures Has(Extended(recorded, files, n), Stem(files[at]))
  {
    if at == n - 1 {
      LastIsHad(Extended(recorded, files, n - 1), files[n - 1]);
    } else {
      ExtendedHas(recorded, files, n - 1, at);
      HasGrows(Extended(recorded, files, n - 1), files[n - 1], Stem(files[at]));
    }
  }

  lemma LastIsHad(recorded: seq<string>, file: string)
    ensures Has(recorded + [file], Stem(file))
  {
    assert (recorded + [file])[|recorded|] == file;
  }

  lemma {:induction false} ExtendedKeepsDistinct(recorded: seq<string>, files: seq<string>, n: nat)
    requires DistinctIds(recorded) && n <= |files|
    ensures DistinctIds(Extended(recorded, files, n))
  {
    if n == 0 {
    } else {
      ExtendedKeepsDistinct(recorded, files, n - 1);
    }
  }

  lemma {:induction false} ExtendedCovered(recorded: seq<string>, files: seq<string>, n: nat)
    requires n <= |files| && forall k :: 0 <= k < n ==> Has(recorded, Stem(files[k]))
    ensures Extended(recorded, files, n) == recorded
  {
    if n == 0 {
    } else {
      ExtendedCovered(recorded, files, n - 1);
      assert Has(recorded, Stem(files[n - 1]));
    }
  }

  /** With distinct ids a fresh database records exactly the files, in order. */
  lemma {:induction false} DistinctFilesAllRecorded(files: seq<string>, n: nat)
    requires DistinctIds(files) && n <= |files|
    ensures Extended([], files, n) == files[..n]
  {
    if n == 0 {
    } else {
      DistinctFilesAllRecorded(files, n - 1);
      assert files[..n] == files[..n - 1] + [files[n - 1]];
    }
  }

  /** Restarting after a crash at any file reaches the records of an uninterrupted run. */
  lemma {:induction false} RestartReachesSameEnd(recorded: seq<string>, files: seq<string>, crash: nat, n: nat)
    requires crash <= n <= |files|
    ensures Extended(Extended(recorded, files, crash), files, n) == Extended(recorded, files, n)
  {
    if crash == n {
      var r := Extended(recorded, files, n);
      forall k | 0 <= k < n ensures Has(r, Stem(files[k])) { ExtendedHas(recorded, files, n, k); }
      ExtendedCovered(r, files, n);
    } else {
      RestartReachesSameEnd(recorded, files, crash, n - 1);
    }
  }

  // ---- the method as written --------------------------------------------

  datatype Outcome = Completed | Locked | Failed | Crashed

  class Database<S> {
    const exec: (S, string) -> Option<S>
    var schema: S
    var recorded: seq<string>

    constructor (exec: (S, string) -> Option<S>, schema: S)
      ensures this.exec == exec && this.schema == schema && recorded == []
    {
      this.exec, this.schema, this.recorded := exec, schema, [];
    }

    /** One run, which crashes when its statements exceed `patience`. Whatever the
        outcome, the records are those of the files up to some point and the schema has
        executed exactly the newly recorded scripts, in order. */
    method Run(gotLock: bool, files: seq<string>, patience: nat) returns (outcome: Outcome, ghost reached: nat)
      modifies this`schema, this`recorded
      ensures reached <= |files| && recorded == Extended(old(recorded), files, reached)
      ensures old(recorded) <= recorded
      ensures Applied(exec, old(schema), recorded[|old(recorded)|..]) == Some(schema)
      ensures outcome == Completed ==> reached == |files|
      ensures outcome == Locked <==> !gotLock
      ensures outcome == Crashed ==> patience < 4 * |files|
      ensures outcome == Failed ==> reached < |files| && !Has(recorded, Stem(files[reached])) && exec(schema, files[reached]) == None
    {
      reached := 0;
      if !gotLock {
        return Locked, 0;
      }
      var left := patience;
      ghost var before, from := recorded, schema;
      for i := 0 to |files|
        invariant recorded == Extended(before, files, i) && before <= recorded
        invariant left >= patience - 4 * i
        invariant Applied(exec, from, recorded[|before|..]) == Some(schema)
      {
        reached := i;
        var file := files[i];
        if left == 0 {
          return Crashed, i;
        }
        left := left - 1;
        if Has(recorded, Stem(file)) {
          continue;
        }
        // The transaction works on copies until it commits.
        var result := exec(schema, file);
        if result.None? {
          return Failed, i;
        }
        var txSchema, txRecorded := result.value, recorded + [file];
        if left < 3 {
          return Crashed, i;
        }
        left := left - 3;
        AppliedOne(exec, from, recorded[|before|..], file);
        assert txRecorded[|before|..] == recorded[|before|..] + [file];
        schema, recorded := txSchema, txRecorded;
      }
      return Completed, |files|;
    }
  }

  /** A completed run followed by another is a no-op, whatever becomes of the second, which
      cannot fail and completes unless it is locked out or crashes. */
  method RunTwice<S>(db: Database<S>, files: seq<string>, patience: nat, gotLock: bool, morePatience: nat)
    returns (first: Outcome, second: Outcome, ghost schema: S, ghost recorded: seq<string>)
    modifies db
    ensures first == Completed ==>
              && recorded == Extended(old(db.recorded), files, |files|) && old(db.recorded) <= recorded
              && Applied(db.exec, old(db.schema), recorded[|old(db.recorded)|..]) == Some(schema)
              && db.recorded == recorded && db.schema == schema
              && second != Failed && (gotLock && morePatience >= 4 * |files| ==> second == Completed)
  {
    ghost var before, reached := db.recorded, 0;
    first, reached := db.Run(true, files, patience);
    schema, recorded := db.schema, db.recorded;
    second, reached := db.Run(gotLock, files, morePatience);
    if first == Completed {
      forall k | 0 <= k < |files| ensures Has(recorded, Stem(files[k])) { ExtendedHas(before, files, |files|, k); }
      ExtendedCovered(recorded, files, reached);
      assert recorded[|recorded|..] == [];
    }
  }

  // ---- runs of several migrators ----------------------------------------

  /** A migrator, by the directory it listed, the file it has come to, and whether it has
      found that file unrecorded and opened the transaction. No lock is assumed. */
  datatype Runner = Runner(files: seq<string>, at: nat, trying: bool)

  datatype World<S> = World(schema: S, recorded: seq<string>, runners: map<nat, Runner>)

  datatype Step =
    | Start(r: nat, files: seq<string>)
    | Look(r: nat)
    | Commit(r: nat)
    | Stop(r: nat)

  predicate Enabled<S>(w: World<S>, s: Step) {
    match s
    case Start(r, _) => r !in w.runners
    case Look(r) => r in w.runners && !w.runners[r].trying && w.runners[r].at < |w.runners[r].files|
    case Commit(r) => r in w.runners && w.runners[r].trying && w.runners[r].at < |w.runners[r].files|
    case Stop(r) => r in w.runners
  }

  /** A commit fails when the script fails or, on the primary key, when another migrator
      has recorded the id; Stop is a crash, an error or the end. */
  function Next<S>(exec: (S, string) -> Option<S>, w: World<S>, s: Step): World<S>
    requires Enabled(w, s)
  {
    match s
    case Start(r, files) => w.(runners := w.runners[r := Runner(files, 0, false)])
    case Look(r) =>
      var q := w.runners[r];
      w.(runners := w.runners[r := if Has(w.recorded, Stem(q.files[q.at])) then q.(at := q.at + 1) else q.(trying := true)])
    case Commit(r) =>
      var q := w.runners[r];
      var file := q.files[q.at];
      var result := exec(w.schema, file);
      if result.None? || Has(w.recorded, Stem(file)) then w.(runners := w.runners - {r})
      else World(result.value, w.recorded + [file], w.runners[r := Runner(q.files, q.at + 1, false)])
    case Stop(r) => w.(runners := w.runners - {r})
  }

  ghost predicate IsRun<S>(exec: (S, string) -> Option<S>, run: seq<World<S>>, steps: seq<Step>) {
    && |run| == |steps| + 1 && run[0].recorded == [] && run[0].runners == map[]
    && forall k :: 0 <= k < |steps| ==> Enabled(run[k], steps[k]) && run[k + 1] == Next(exec, run[k], steps[k])
  }

  /** Every script is executed at most once, and the schema is what the recorded scripts
      make of the initial one, for any directories, crashes and overlaps of migrators. */
  lemma {:induction false} ExactlyOnce<S>(exec: (S, string) -> Option<S>, run: seq<World<S>>, steps: seq<Step>, n: nat)
    requires IsRun(exec, run, steps) && n < |run|
    ensures DistinctIds(run[n].recorded)
    ensures Applied(exec, run[0].schema, run[n].recorded) == Some(run[n].schema)
  {
    if n == 0 {
    } else {
      ExactlyOnce(exec, run, steps, n - 1);
      var w, s := run[n - 1], steps[n - 1];
      if s.Commit? {
        AppliedOne(exec, run[0].schema, w.recorded, w.runners[s.r].files[w.runners[s.r].at]);
      }
    }
  }

  /** A migrator has passed only files whose ids are recorded. */
  ghost predicate Passed(recorded: seq<string>, q: Runner) {
    q.at <= |q.files| && forall k :: 0 <= k < q.at ==> Has(recorded, Stem(q.files[k]))
  }

  lemma {:induction false} RunnersPass<S>(exec: (S, string) -> Option<S>, run: seq<World<S>>, steps: seq<Step>, n: nat)
    requires IsRun(exec, run, steps) && n < |run|
    ensures forall r :: r in run[n].runners ==> Passed(run[n].recorded, run[n].runners[r])
  {
    if n == 0 {
    } else {
      RunnersPass(exec, run, steps, n - 1);
      var w, s, w' := run[n - 1], steps[n - 1], run[n];
      forall r | r in w'.runners ensures Passed(w'.recorded, w'.runners[r]) {
        if r in w.runners { assert Passed(w.recorded, w.runners[r]); }
        forall k | 0 <= k < w'.runners[r].at ensures Has(w'.recorded, Stem(w'.runners[r].files[k])) {
          if s.Commit? && |w'.recorded| > |w.recorded| {
            HasGrows(w.recorded, w'.recorded[|w.recorded|], Stem(w'.runners[r].files[k]));
          }
        }
      }
    }
  }

  /** All migrators of a run list the same files. */
  ghost predicate SameFiles(steps: seq<Step>, files: seq<string>) {
    forall k :: 0 <= k < |steps| && steps[k].Start? ==> steps[k].files == files
  }

  lemma {:induction false} RunnersHold<S>(exec: (S, string) -> Option<S>, run: seq<World<S>>, steps: seq<Step>,
                                          files: seq<string>, n: nat)
    requires IsRun(exec, run, steps) && SameFiles(steps, files) && n < |run|
    ensures forall r :: r in run[n].runners ==> run[n].runners[r].files == files
  {
    if n == 0 {
    } else {
      RunnersHold(exec, run, steps, files, n - 1);
      var s := steps[n - 1];
      assert s.Start? ==> s.files == files;
    }
  }

  /** With one directory the records are always those of a prefix of the sorted files. */
  lemma {:induction false} RecordedIsPrefix<S>(exec: (S, string) -> Option<S>, run: seq<World<S>>, steps: seq<Step>,
                                               files: seq<string>, n: nat) returns (k: nat)
    requires IsRun(exec, run, steps) && SameFiles(steps, files) && n < |run|
    ensures k <= |files| && run[n].recorded == Extended([], files, k)
  {
    if n == 0 {
      k := 0;
    } else {
      k := RecordedIsPrefix(exec, run, steps, files, n - 1);
      RunnersHold(exec, run, steps, files, n - 1);
      RunnersPass(exec, run, steps, n - 1);
      var w, s := run[n - 1], steps[n - 1];
      if s.Commit? && |run[n].recorded| > |w.recorded| {
        var at := w.runners[s.r].at;
        PrefixGrows(w.recorded, files, k, at);
        k := at + 1;
      }
    }
  }

  /** Recording the first unrecorded file after a recorded prefix gives a longer prefix. */
  lemma PrefixGrows(recorded: seq<string>, files: seq<string>, k: nat, at: nat)
    requires k <= |files| && recorded == Extended([], files, k) && at < |files|
    requires forall j :: 0 <= j < at ==> Has(recorded, Stem(files[j]))
    requires !Has(recorded, Stem(files[at]))
    ensures recorded + [files[at]] == Extended([], files, at + 1)
  {
    if at < k {
      ExtendedHas([], files, k, at);
    } else {
      RestartReachesSameEnd([], files, k, at);
      ExtendedCovered(recorded, files, at);
    }
  }

  lemma AllHave(recorded: seq<string>, files: seq<string>)
    requires recorded == Extended([], files, |files|)
    ensures forall k :: 0 <= k < |files| ==> Has(recorded, Stem(files[k]))
  {
    forall k | 0 <= k < |files| ensures Has(recorded, Stem(files[k])) { ExtendedHas([], files, |files|, k); }
  }

  /** A migrator that has passed all files has all of them recorded. */
  lemma CompletedRecordsAll<S>(exec: (S, string) -> Option<S>, run: seq<World<S>>, steps: seq<Step>,
                               files: seq<string>, n: nat, r: nat)
    requires IsRun(exec, run, steps) && SameFiles(steps, files) && n < |run|
    requires r in run[n].runners && run[n].runners[r].at == |files|
    ensures run[n].recorded == Extended([], files, |files|)
  {
    RunnersHold(exec, run, steps, files, n);
    RunnersPass(exec, run, steps, n);
    var k := RecordedIsPrefix(exec, run, steps, files, n);
    assert Passed(run[n].recorded, run[n].runners[r]);
    RestartReachesSameEnd([], files, k, |files|);
    ExtendedCovered(run[n].recorded, files, |files|);
  }

  /** Once all files are recorded, nothing changes records or schema for the rest of the
      run: not the migrators still under way, and not those that start later. */
  lemma {:induction false} CompletedMakesNoOps<S>(exec: (S, string) -> Option<S>, run: seq<World<S>>, steps: seq<Step>,
                                                  files: seq<string>, n: nat, m: nat)
    requires IsRun(exec, run, steps) && SameFiles(steps, files) && n <= m < |run|
    requires run[n].recorded == Extended([], files, |files|)
    ensures run[m].recorded == run[n].recorded && run[m].schema == run[n].schema
  {
    if n == m {
    } else {
      CompletedMakesNoOps(exec, run, steps, files, n, m - 1);
      RunnersHold(exec, run, steps, files, m - 1);
      AllHave(run[n].recorded, files);
      var w, s := run[m - 1], steps[m - 1];
      if s.Commit? { assert Has(w.recorded, Stem(files[w.runners[s.r].at])); }
    }
  }
}
