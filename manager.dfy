/**
 * `ProjectManager`: the registry of running reporters, reconciled against
 * the listing of project directories.
 */
module Manager {
  import opened Reporting

  /** `a < b` for Ruby strings: character by character, a proper prefix first. */
  predicate LexLess(a: string, b: string)
    ensures LexLess(a, b) ==> a != b
    decreases |a|
  {
    if a == [] then b != []
    else if b == [] then false
    else if a[0] != b[0] then a[0] < b[0]
    else LexLess(a[1..], b[1..])
  }

  lemma {:induction false} LexLessTransitive(a: string, b: string, c: string)
    requires LexLess(a, b) && LexLess(b, c)
    ensures LexLess(a, c)
  {
    if a != [] && b != [] && c != [] && a[0] == b[0] && b[0] == c[0] {
      LexLessTransitive(a[1..], b[1..], c[1..]);
    }
  }

  lemma {:induction false} LexLessTotal(a: string, b: string)
    requires a != b
    ensures LexLess(a, b) || LexLess(b, a)
  {
    if a != [] && b != [] && a[0] == b[0] {
      assert a == [a[0]] + a[1..] && b == [b[0]] + b[1..];
      LexLessTotal(a[1..], b[1..]);
    }
  }

  /** Every finite non-empty set of strings has a least element. */
  lemma {:induction false} LeastExists(s: set<string>)
    requires s != {}
    ensures exists m :: m in s && forall x :: x in s && x != m ==> LexLess(m, x)
    decreases |s|
  {
    var y :| y in s;
    if s != {y} {
      LeastExists(s - {y});
      var m :| m in s - {y} && forall x :: x in s - {y} && x != m ==> LexLess(m, x);
      if LexLess(m, y) {
        assert forall x :: x in s && x != m ==> LexLess(m, x);
      } else {
        LexLessTotal(m, y);
        forall x | x in s && x != y
          ensures LexLess(y, x)
        {
          if x != m {
            LexLessTransitive(y, m, x);
          }
        }
      }
    }
  }

  predicate StrictlySorted(names: seq<string>) {
    forall i, j :: 0 <= i < j < |names| ==> LexLess(names[i], names[j])
  }

  /**
   * `xs - ys` for Ruby arrays: the elements of `xs` that are not in `ys`,
   * in their order in `xs`.
   */
  function Minus(xs: seq<string>, ys: seq<string>): (r: seq<string>)
    ensures forall x :: x in r <==> x in xs && x !in ys
    ensures |r| <= |xs|
  {
    if xs == [] then []
    else (if xs[0] in ys then [] else [xs[0]]) + Minus(xs[1..], ys)
  }

  /** With the same names on both sides, a reconciliation pass has nothing to start or stop. */
  lemma SameListingNothingToDo(projects: seq<string>, names: seq<string>)
    requires forall p :: p in projects <==> p in names
    ensures Minus(projects, names) == [] && Minus(names, projects) == []
  {
    if Minus(projects, names) != [] {
      assert Minus(projects, names)[0] in Minus(projects, names);
    }
    if Minus(names, projects) != [] {
      assert Minus(names, projects)[0] in Minus(names, projects);
    }
  }

  class ProjectManager {
    /** `@@reporters`: project name to its reporter. */
    var reporters: map<string, LogReporter>

    /** Each registered reporter belongs to its key and is running. */
    ghost predicate Valid()
      reads this, reporters.Values
    {
      forall p :: p in reporters ==> reporters[p].project == p && reporters[p].thread != null
    }

    constructor ()
      ensures Valid() && reporters == map[]
    {
      reporters := map[];
    }

    /** `reporter_names`: the registered project names, sorted. */
    method ReporterNames() returns (names: seq<string>)
      ensures StrictlySorted(names)
      ensures forall n :: n in names <==> n in reporters
    {
      names := [];
      var rest := reporters.Keys;
      while rest != {}
        invariant rest <= reporters.Keys
        invariant forall n :: n in names <==> n in reporters && n !in rest
        invariant StrictlySorted(names)
        invariant forall i, r :: 0 <= i < |names| && r in rest ==> LexLess(names[i], r)
        decreases rest
      {
        LeastExists(rest);
        var m :| m in rest && forall x :: x in rest && x != m ==> LexLess(m, x);
        forall i, r | 0 <= i < |names| && r in rest - {m}
          ensures LexLess(names[i], r)
        {
          LexLessTransitive(names[i], m, r);
        }
        names := names + [m];
        rest := rest - {m};
      }
    }

    /** `start_reporting_on`: registers and starts a new reporter, unless one is registered already. */
    method StartReportingOn(project: string)
      requires Valid()
      modifies this
      ensures Valid()
      ensures project in old(reporters) ==> reporters == old(reporters)
      ensures project !in old(reporters) ==>
        project in reporters && fresh(reporters[project]) &&
        reporters == old(reporters)[project := reporters[project]]
    {
      if project !in reporters {
        var reporter := new LogReporter(project);
        reporters := reporters[project := reporter];
        reporter.Start();
      }
    }

    /** `stop_reporting_on`: unregisters and stops the project's reporter, if it has one. */
    method StopReportingOn(project: string)
      requires Valid()
      modifies this, if project in reporters then {reporters[project]} else {}
      ensures Valid()
      ensures project !in old(reporters) ==> reporters == old(reporters)
      ensures project in old(reporters) ==>
        reporters == old(reporters) - {project} && old(reporters)[project].thread == null
    {
      if project in reporters {
        var reporter := reporters[project];
        reporters := reporters - {project};
        reporter.Stop();
      }
    }

    /** Starts a reporter for each given name, in order. */
    method StartEach(watches: seq<string>)
      requires Valid()
      modifies this
      ensures Valid()
      ensures forall p :: p in reporters <==> p in old(reporters) || p in watches
      ensures forall p :: p in old(reporters) ==> reporters[p] == old(reporters[p])
      ensures forall p :: p in reporters && p !in old(reporters) ==> fresh(reporters[p])
    {
      for i := 0 to |watches|
        invariant Valid()
        invariant forall p :: p in reporters <==> p in old(reporters) || p in watches[..i]
        invariant forall p :: p in old(reporters) ==> reporters[p] == old(reporters[p])
        invariant forall p :: p in reporters && p !in old(reporters) ==> fresh(reporters[p])
      {
        StartReportingOn(watches[i]);
      }
    }

    /** Stops the reporter of each given name, in order. */
    method StopEach(watches: seq<string>)
      requires Valid()
      modifies this, reporters.Values
      ensures Valid()
      ensures forall p :: p in reporters <==> p in old(reporters) && p !in watches
      ensures forall p :: p in reporters ==> reporters[p] == old(reporters[p]) && reporters[p].thread == old(reporters[p].thread)
      ensures forall p :: p in old(reporters) && p in watches ==> old(reporters[p]).thread == null
    {
      for i := 0 to |watches|
        invariant Valid()
        invariant forall p :: p in reporters <==> p in old(reporters) && p !in watches[..i]
        invariant forall p :: p in reporters ==> reporters[p] == old(reporters[p]) && reporters[p].thread == old(reporters[p].thread)
        invariant forall p :: p in old(reporters) && p in watches[..i] ==> old(reporters[p]).thread == null
      {
        StopReportingOn(watches[i]);
      }
    }

    /**
     * One pass of `run`'s loop over the listed project names: afterwards
     * exactly the listed projects have reporters; the reporters of projects
     * still listed are the same objects, still on the same thread; new
     * ones are fresh and running; the reporters of vanished projects are
     * stopped. A pass over the listing already registered changes nothing.
     */
    method Reconcile(projects: seq<string>)
      requires Valid()
      modifies this, reporters.Values
      ensures Valid()
      ensures forall p :: p in reporters <==> p in projects
      ensures forall p :: p in old(reporters) && p in projects ==>
        reporters[p] == old(reporters[p]) && reporters[p].thread == old(reporters[p].thread)
      ensures forall p :: p in reporters && p !in old(reporters) ==> fresh(reporters[p])
      ensures forall p :: p in old(reporters) && p !in projects ==> old(reporters[p]).thread == null
      ensures (forall p :: p in old(reporters) <==> p in projects) ==> reporters == old(reporters)
    {
      var names := ReporterNames();
      var newWatches := Minus(projects, names);
      var stoppedWatches := Minus(names, projects);
      StartEach(newWatches);
      StopEach(stoppedWatches);
      if forall p :: p in old(reporters) <==> p in projects {
        assert reporters.Keys == old(reporters).Keys;
      }
    }
  }
}
