/** GitHub Actions job ids for the checks of a workflow. */
module CiJobs {
  import opened Wrappers
  import opened Text
  import opened FreshIds
  import ShellWords

  // ----------------------------------------------------------------------- job ids

  predicate JobChar(c: char) { IsAlphanumeric(c) || c == '_' }

  function CleanChar(c: char): char { if JobChar(c) then c else '_' }

  function Clean(s: string): string {
    seq(|s|, k requires 0 <= k < |s| => CleanChar(s[k]))
  }

  /** What GitHub Actions accepts: letters, digits and underscores, not starting with
      a digit. */
  predicate WellFormed(id: string) {
    id != [] && !IsDigit(id[0]) && forall k :: 0 <= k < |id| ==> JobChar(id[k])
  }

  /** Always accepted, what is accepted already is kept, and so is every character that
      may stay. */
  function JobId(s: string): (id: string)
    ensures WellFormed(id)
    ensures WellFormed(s) ==> id == s
    ensures |s| <= |id| <= |s| + 1
    ensures forall k :: 0 <= k < |s| && JobChar(s[k]) ==> id[|id| - |s| + k] == s[k]
  {
    if s != [] && (IsLetter(CleanChar(s[0])) || CleanChar(s[0]) == '_') then Clean(s) else "_" + Clean(s)
  }

  method GithubActionsJobId(checkId: string) returns (id: string)
    ensures id == JobId(checkId)
  {
    id := "";
    for k := 0 to |checkId|
      invariant id == Clean(checkId[..k])
    {
      id := id + [if JobChar(checkId[k]) then checkId[k] else '_'];
    }
    assert checkId[..|checkId|] == checkId;
    if id == "" || !(IsLetter(id[0]) || id[0] == '_') {
      id := "_" + id;
    }
  }

  // ----------------------------------------------------------------- inline checks

  function InlineBase(index: nat): string {
    "inline-" + Decimal(index)
  }

  function InlineId(index: nat, n: nat): string {
    Candidate(InlineBase(index), n)
  }

  function InlineJob(index: nat): nat -> string {
    (n: nat) => JobId(InlineId(index, n))
  }

  /** The job id of a numbered inline check ends in its number. */
  lemma InlineJobText(index: nat, n: nat)
    ensures JobId(InlineId(index, n)) ==
            "inline_" + Decimal(index) + (if n == 0 then "" else "_" + Decimal(n))
  {
    var id := InlineId(index, n);
    var text := "inline_" + Decimal(index) + (if n == 0 then "" else "_" + Decimal(n));
    assert id[0] == 'i';
    assert |Clean(id)| == |text|;
    forall k | 0 <= k < |id| ensures Clean(id)[k] == text[k] {
    }
  }

  lemma NumberedInjective(base: string, m: nat, n: nat)
    requires base + (if m == 0 then "" else "_" + Decimal(m)) == base + (if n == 0 then "" else "_" + Decimal(n))
    ensures m == n
  {
    var a, b := base + (if m == 0 then "" else "_" + Decimal(m)), base + (if n == 0 then "" else "_" + Decimal(n));
    assert |a| == |b|;
    if m > 0 && n > 0 {
      assert a[|base| + 1..] == Decimal(m) && b[|base| + 1..] == Decimal(n);
      DecimalInjective(m, n);
    }
  }

  lemma InlineJobInjective(index: nat, m: nat, n: nat)
    requires JobId(InlineId(index, m)) == JobId(InlineId(index, n))
    ensures m == n
  {
    InlineJobText(index, m);
    InlineJobText(index, n);
    NumberedInjective("inline_" + Decimal(index), m, n);
  }

  lemma InlineJobsDistinct(index: nat)
    ensures Distinct(InlineJob(index))
  {
    forall m: nat, n: nat | InlineJob(index)(m) == InlineJob(index)(n) ensures m == n {
      InlineJobInjective(index, m, n);
    }
  }

  ghost function JobsOf(names: set<string>): set<string> {
    set name | name in names :: JobId(name)
  }

  /** The number of the first inline id whose job id is free. */
  ghost predicate FirstFreeJob(index: nat, named: set<string>, used: set<string>, n: nat) {
    && JobId(InlineId(index, n)) !in named + used
    && forall k :: 0 <= k < n ==> JobId(InlineId(index, k)) in named + used
  }

  method NamedJobIds(names: set<string>) returns (jobs: set<string>)
    ensures jobs == JobsOf(names)
  {
    jobs := {};
    var rest := names;
    while rest != {}
      invariant rest <= names && jobs == JobsOf(names - rest)
      decreases |rest|
    {
      var name :| name in rest;
      var job := GithubActionsJobId(name);
      jobs, rest := jobs + {job}, rest - {name};
    }
  }

  /** The first `n` inline ids all have taken jobs. */
  ghost predicate TakenSoFar(index: nat, taken: set<string>, n: nat) {
    forall k :: 0 <= k < n ==> JobId(InlineId(index, k)) in taken
  }

  lemma NamedIsTaken(names: set<string>, id: string)
    ensures id in names ==> JobId(id) in JobsOf(names)
  {
  }

  lemma TakenInlineBound(index: nat, taken: set<string>, n: nat)
    requires TakenSoFar(index, taken, n)
    ensures n <= |taken|
  {
    InlineJobsDistinct(index);
    TakenBound(InlineJob(index), n, taken);
  }

  lemma TakenNext(index: nat, taken: set<string>, n: nat)
    requires TakenSoFar(index, taken, n) && JobId(InlineId(index, n)) in taken
    ensures TakenSoFar(index, taken, n + 1) && n < |taken|
  {
    TakenInlineBound(index, taken, n + 1);
  }

  /** The search always ends: the candidates have different job ids, and only finitely
      many are taken. */
  method UniqueInlineCheckId(names: set<string>, used: set<string>, index: nat) returns (id: string, ghost n: nat)
    ensures id == InlineId(index, n) && FirstFreeJob(index, JobsOf(names), used, n)
    ensures id !in names && JobId(id) !in used && JobId(id) !in JobsOf(names)
  {
    var named := NamedJobIds(names);
    var suffix := 0;
    id, n := InlineId(index, 0), 0;
    while true
      invariant id == InlineId(index, n) && suffix == n && TakenSoFar(index, named + used, n)
      decreases |named + used| - n
    {
      var job := GithubActionsJobId(id);
      if id !in names && job !in named && job !in used {
        return;
      }
      NamedIsTaken(names, id);
      TakenNext(index, named + used, n);
      suffix, n := suffix + 1, n + 1;
      id := InlineId(index, suffix);
    }
  }

  // ------------------------------------------------------------------- extraction

  /** A check as far as emission depends on it: `command` is absent for tool checks. */
  datatype Check = Check(command: Option<string>, caption: Option<string>, cwd: Option<string>)

  datatype CheckRef = Named(name: string) | Inline(check: Check)

  datatype Spec = Spec(id: string, caption: string, run: string, cwd: Option<string>)

  datatype Error = MissingCheck(at: nat) | NoCommand(at: nat) | UsesFiles(at: nat) | DuplicateJob(at: nat)

  datatype Result<+T> = Ok(value: T) | Err(error: Error)

  /** The command takes the matched files. */
  ghost predicate TakesFiles(command: string) {
    exists k: nat :: OccursAt(command, ShellWords.PLACEHOLDER, k)
  }

  ghost predicate Emittable(check: Check) {
    check.command.Some? && !TakesFiles(check.command.value)
  }

  /** The spec runs the check's command where the check runs, under its label or else under
      its own id. */
  predicate Carries(spec: Spec, check: Check) {
    && check.command == Some(spec.run)
    && spec.cwd == check.cwd
    && (check.caption.Some? ==> spec.caption == check.caption.value)
    && (check.caption.None? ==> spec.caption == spec.id)
  }

  function SpecOf(id: string, check: Check, at: nat): Result<Spec> {
    if check.command.None? then Err(NoCommand(at))
    else if Find(check.command.value, ShellWords.PLACEHOLDER).Some? then Err(UsesFiles(at))
    else Ok(Spec(id, if check.caption.Some? then check.caption.value else id, check.command.value, check.cwd))
  }

  lemma SpecOfCarries(id: string, check: Check, at: nat)
    ensures SpecOf(id, check, at).Ok? <==> Emittable(check)
    ensures SpecOf(id, check, at).Ok? ==>
              SpecOf(id, check, at).value.id == id && Carries(SpecOf(id, check, at).value, check)
    ensures SpecOf(id, check, at) == Err(NoCommand(at)) <==> check.command.None?
    ensures SpecOf(id, check, at) == Err(UsesFiles(at)) <==> check.command.Some? && TakesFiles(check.command.value)
  {
    if check.command.Some? {
      FindMissesNone(check.command.value, ShellWords.PLACEHOLDER);
    }
  }

  /** The check that a reference stands for. */
  function Target(checks: map<string, Check>, ref: CheckRef): Option<Check> {
    match ref
    case Named(name) => if name in checks then Some(checks[name]) else None
    case Inline(check) => Some(check)
  }

  ghost predicate Fine(checks: map<string, Check>, ref: CheckRef) {
    Target(checks, ref).Some? && Emittable(Target(checks, ref).value)
  }

  /** Two named references with the same job id. */
  predicate Clash(refs: seq<CheckRef>, i: nat, j: nat)
    requires i < j < |refs|
  {
    refs[i].Named? && refs[j].Named? && JobId(refs[i].name) == JobId(refs[j].name)
  }

  ghost predicate NoClash(refs: seq<CheckRef>, n: nat)
    requires n <= |refs|
  {
    forall i, j :: 0 <= i < j < n ==> !Clash(refs, i, j)
  }

  ghost function UsedJobs(specs: seq<Spec>): set<string> {
    set k | 0 <= k < |specs| :: JobId(specs[k].id)
  }

  /** The spec of a reference: the named check under its own name, or the inline check
      under the first inline id whose job is free among the checks and the jobs before. */
  ghost predicate SpecFor(checks: map<string, Check>, ref: CheckRef, at: nat, used: set<string>, spec: Spec) {
    match ref
    case Named(name) => name in checks && Emittable(checks[name]) && Carries(spec, checks[name]) && spec.id == name
    case Inline(check) =>
      && Emittable(check) && Carries(spec, check)
      && exists n :: FirstFreeJob(at, JobsOf(checks.Keys), used, n) && spec.id == InlineId(at, n)
  }

  ghost predicate SpecsFor(checks: map<string, Check>, refs: seq<CheckRef>, specs: seq<Spec>) {
    && |specs| <= |refs|
    && forall k :: 0 <= k < |specs| ==> SpecFor(checks, refs[k], k, UsedJobs(specs[..k]), specs[k])
  }

  /** The id of a check without a name: its position, with a number behind it if need be. */
  ghost predicate Positional(id: string, at: nat) {
    id == "inline-" + Decimal(at) || exists n: nat :: n > 0 && id == "inline-" + Decimal(at) + "-" + Decimal(n)
  }

  lemma InlineIsPositional(checks: map<string, Check>, refs: seq<CheckRef>, specs: seq<Spec>, k: nat)
    requires SpecsFor(checks, refs, specs) && k < |specs| && refs[k].Inline?
    ensures Positional(specs[k].id, k)
  {
    assert SpecFor(checks, refs[k], k, UsedJobs(specs[..k]), specs[k]);
    var n :| FirstFreeJob(k, JobsOf(checks.Keys), UsedJobs(specs[..k]), n) && specs[k].id == InlineId(k, n);
  }

  predicate DistinctJobs(specs: seq<Spec>) {
    forall i, j :: 0 <= i < j < |specs| ==> JobId(specs[i].id) != JobId(specs[j].id)
  }

  /** A job id already used belongs to an earlier named reference, if a named check asks
      for it: inline checks keep clear of every named check. */
  lemma ClashIsNamed(checks: map<string, Check>, refs: seq<CheckRef>, specs: seq<Spec>, at: nat)
    requires SpecsFor(checks, refs, specs) && at == |specs| < |refs|
    requires refs[at].Named? && refs[at].name in checks && JobId(refs[at].name) in UsedJobs(specs)
    ensures exists i :: 0 <= i < at && Clash(refs, i, at)
  {
    var i :| 0 <= i < |specs| && JobId(specs[i].id) == JobId(refs[at].name);
    assert SpecFor(checks, refs[i], i, UsedJobs(specs[..i]), specs[i]);
    assert JobId(refs[at].name) in JobsOf(checks.Keys);
    assert refs[i].Named?;
    assert Clash(refs, i, at);
  }

  lemma UsedJobsAppend(specs: seq<Spec>, spec: Spec)
    ensures UsedJobs(specs + [spec]) == UsedJobs(specs) + {JobId(spec.id)}
  {
    var longer := specs + [spec];
    forall job | job in UsedJobs(specs) + {JobId(spec.id)} ensures job in UsedJobs(longer) {
      if job == JobId(spec.id) {
        assert longer[|specs|] == spec;
      } else {
        var k :| 0 <= k < |specs| && JobId(specs[k].id) == job;
        assert longer[k] == specs[k];
      }
    }
  }

  lemma SpecsAppend(checks: map<string, Check>, refs: seq<CheckRef>, specs: seq<Spec>, spec: Spec)
    requires SpecsFor(checks, refs, specs) && |specs| < |refs|
    requires SpecFor(checks, refs[|specs|], |specs|, UsedJobs(specs), spec)
    ensures SpecsFor(checks, refs, specs + [spec])
  {
    var longer := specs + [spec];
    forall k | 0 <= k < |longer| ensures SpecFor(checks, refs[k], k, UsedJobs(longer[..k]), longer[k]) {
      if k < |specs| {
        assert longer[..k] == specs[..k];
      } else {
        assert longer[..k] == specs;
      }
    }
  }

  /** No clash among the references of specs with distinct jobs. */
  lemma DistinctMeansNoClash(checks: map<string, Check>, refs: seq<CheckRef>, specs: seq<Spec>)
    requires SpecsFor(checks, refs, specs) && DistinctJobs(specs)
    ensures NoClash(refs, |specs|)
  {
    forall i, j | 0 <= i < j < |specs| ensures !Clash(refs, i, j) {
      assert SpecFor(checks, refs[i], i, UsedJobs(specs[..i]), specs[i]);
      assert SpecFor(checks, refs[j], j, UsedJobs(specs[..j]), specs[j]);
    }
  }

  /** What an error at a reference says: it is missing, cannot be emitted, or is named
      and clashes with an earlier named one. */
  ghost predicate ErrorFor(checks: map<string, Check>, refs: seq<CheckRef>, e: Error) {
    match e
    case MissingCheck(at) => at < |refs| && Target(checks, refs[at]).None?
    case NoCommand(at) => at < |refs| && Target(checks, refs[at]).Some? && Target(checks, refs[at]).value.command.None?
    case UsesFiles(at) =>
      && at < |refs| && Target(checks, refs[at]).Some? && Target(checks, refs[at]).value.command.Some?
      && TakesFiles(Target(checks, refs[at]).value.command.value)
    case DuplicateJob(at) => at < |refs| && exists i :: 0 <= i < at && Clash(refs, i, at)
  }

  /** The next spec, or the error that stops the extraction. */
  method NextSpec(checks: map<string, Check>, refs: seq<CheckRef>, ghost specs: seq<Spec>, used: set<string>, at: nat)
    returns (r: Result<Spec>)
    requires at == |specs| < |refs| && SpecsFor(checks, refs, specs) && used == UsedJobs(specs)
    ensures r.Ok? ==> SpecFor(checks, refs[at], at, used, r.value) && JobId(r.value.id) !in used
    ensures r.Err? ==> ErrorFor(checks, refs, r.error)
  {
    var id: string, check: Check;
    match refs[at] {
      case Named(name) =>
        if name !in checks {
          return Err(MissingCheck(at));
        }
        id, check := name, checks[name];
      case Inline(inline) =>
        ghost var n;
        id, n := UniqueInlineCheckId(checks.Keys, used, at);
        check := inline;
    }
    var spec := SpecOf(id, check, at);
    SpecOfCarries(id, check, at);
    if spec.Err? {
      return spec;
    }
    var job := GithubActionsJobId(id);
    if job in used {
      ClashIsNamed(checks, refs, specs, at);
      return Err(DuplicateJob(at));
    }
    return spec;
  }

  /** The jobs of a workflow, in the order of its checks: pairwise distinct and
      well-formed.  Extraction succeeds exactly when every reference can be emitted and
      no two named references clash; an inline check never causes a duplicate. */
  method ExtractV3Checks(checks: map<string, Check>, refs: seq<CheckRef>) returns (r: Result<seq<Spec>>)
    ensures r.Ok? <==> (forall k :: 0 <= k < |refs| ==> Fine(checks, refs[k])) && NoClash(refs, |refs|)
    ensures r.Ok? ==> |r.value| == |refs| && SpecsFor(checks, refs, r.value) && DistinctJobs(r.value)
    ensures r.Ok? ==> forall k :: 0 <= k < |refs| && refs[k].Inline? ==> Positional(r.value[k].id, k)
    ensures r.Err? ==> ErrorFor(checks, refs, r.error)
  {
    var specs: seq<Spec>, used: set<string> := [], {};
    for at := 0 to |refs|
      invariant |specs| == at && SpecsFor(checks, refs, specs) && DistinctJobs(specs)
      invariant used == UsedJobs(specs)
    {
      var next := NextSpec(checks, refs, specs, used, at);
      if next.Err? {
        return Err(next.error);
      }
      SpecsAppend(checks, refs, specs, next.value);
      UsedJobsAppend(specs, next.value);
      used := used + {JobId(next.value.id)};
      specs := specs + [next.value];
    }
    DistinctMeansNoClash(checks, refs, specs);
    assert forall k :: 0 <= k < |refs| ==> SpecFor(checks, refs[k], k, UsedJobs(specs[..k]), specs[k]);
    forall k | 0 <= k < |refs| && refs[k].Inline? ensures Positional(specs[k].id, k) {
      InlineIsPositional(checks, refs, specs, k);
    }
    return Ok(specs);
  }
}
