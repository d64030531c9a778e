/** Resources requested by a computation are matched by position against the ones it
    had before, and created only after the run: a run sees what earlier runs asked
    for.  Here is what reconciliation keeps, and why repeated runs settle. */
module Resources {
  import opened ReactiveTypes

  /** A live resource; the serial number is its identity. */
  datatype Instance = Instance(serial: nat, value: Json)

  datatype Slot = Slot(spec: ResourceSpec, instance: Instance)

  /** Resource constructors by type: the value of a new instance, from its arguments. */
  type Registry = map<string, Json -> Json>

  predicate Kept(before: seq<Slot>, specs: seq<ResourceSpec>, k: nat)
    requires k < |specs|
  {
    k < |before| && before[k].spec == specs[k]
  }

  /** Position `k` of a reconciled list: the request in order, with the untouched
      instance if the old request at that position was the same, and otherwise with
      an instance created now. */
  ghost predicate SlotOk(
    before: seq<Slot>, specs: seq<ResourceSpec>, k: nat, slot: Slot, registry: Registry, created: nat)
    requires k < |specs|
  {
    && slot.spec == specs[k]
    && (Kept(before, specs, k) ==> slot == before[k])
    && (!Kept(before, specs, k) ==>
          && specs[k].typeId in registry
          && slot.instance.serial >= created
          && slot.instance.value == registry[specs[k].typeId](specs[k].args))
  }

  /** `after` is what reconciliation makes of `before` for the requests `specs`. */
  ghost predicate Reconciled(
    before: seq<Slot>, specs: seq<ResourceSpec>, after: seq<Slot>, registry: Registry, created: nat)
  {
    && |after| == |specs|
    && forall k :: 0 <= k < |specs| ==> SlotOk(before, specs, k, after[k], registry, created)
  }

  /** New instances are new: no two positions share one. */
  ghost predicate NewSerialsDistinct(before: seq<Slot>, specs: seq<ResourceSpec>, after: seq<Slot>)
    requires |after| <= |specs|
  {
    forall j, k :: 0 <= j < k < |after| && !Kept(before, specs, j) && !Kept(before, specs, k) ==>
      after[j].instance.serial != after[k].instance.serial
  }

  /** Serial numbers given out now will not be given out again. */
  ghost predicate SerialsIssued(before: seq<Slot>, specs: seq<ResourceSpec>, after: seq<Slot>, created: nat)
    requires |after| <= |specs|
  {
    forall k :: 0 <= k < |after| && !Kept(before, specs, k) ==> after[k].instance.serial < created
  }

  // ---------------------------------------------------- a closure with resources

  /** The next action of a closure after the resource values it has received. */
  datatype Action = Done(value: Avail) | Need(spec: ResourceSpec)

  type Closure = seq<Json> -> Action

  /** What one run requests and answers when it stops at the first resource that is
      not there yet. */
  datatype Pass = Pass(requests: seq<ResourceSpec>, answer: Avail)

  function RunPass(closure: Closure, active: seq<Slot>, got: seq<Json>): Pass
    requires |got| <= |active|
    decreases |active| - |got|
  {
    match closure(got)
    case Done(v) => Pass([], v)
    case Need(spec) =>
      if |got| < |active| && active[|got|].spec == spec then
        var rest := RunPass(closure, active, got + [active[|got|].instance.value]);
        Pass([spec] + rest.requests, rest.answer)
      else
        Pass([spec], Absent(Loading))
  }

  function Prepend(requests: seq<ResourceSpec>, pass: Pass): Pass {
    Pass(requests + pass.requests, pass.answer)
  }

  lemma PassStep(closure: Closure, active: seq<Slot>, got: seq<Json>, requests: seq<ResourceSpec>)
    requires |got| <= |active| && closure(got).Need?
    ensures
      var spec := closure(got).spec;
      Prepend(requests, RunPass(closure, active, got)) ==
      if |got| < |active| && active[|got|].spec == spec
      then Prepend(requests + [spec], RunPass(closure, active, got + [active[|got|].instance.value]))
      else Pass(requests + [spec], Absent(Loading))
  {
  }

  class ResourceManager {
    var active: map<string, seq<Slot>>
    const registry: Registry
    var created: nat
    /** The stacks of running computations and of their cursors. */
    var computations: seq<string>
    var cursors: seq<nat>
    /** The requests recorded by the innermost trace. */
    var requested: seq<ResourceSpec>

    constructor (registry: Registry)
      ensures this.registry == registry && active == map[] && created == 0
      ensures computations == [] && cursors == [] && requested == []
    {
      this.registry := registry;
      active, created, computations, cursors, requested := map[], 0, [], [], [];
    }

    ghost predicate Running(id: string, cursor: nat)
      reads this
    {
      && computations != [] && cursors != []
      && computations[|computations| - 1] == id
      && cursors[|cursors| - 1] == cursor
    }

    ghost function Active(id: string): seq<Slot>
      reads this
    {
      if id in active then active[id] else []
    }

    /** `Runtime::resource`: record the request and look at the slot under the cursor. */
    method Request(spec: ResourceSpec) returns (answer: Avail)
      requires |computations| == |cursors|
      modifies this`cursors, this`requested
      ensures requested == old(requested) + [spec]
      ensures computations == [] ==> answer == Absent(Loading) && cursors == []
      ensures computations != [] ==>
        var id, cursor := computations[|computations| - 1], old(cursors[|cursors| - 1]);
        && cursors == old(cursors)[|old(cursors)| - 1 := cursor + 1]
        && answer == if cursor < |Active(id)| && Active(id)[cursor].spec == spec
                     then Present(Active(id)[cursor].instance.value) else Absent(Loading)
    {
      requested := requested + [spec];
      if computations != [] && cursors != [] {
        var id := computations[|computations| - 1];
        var cursor := cursors[|cursors| - 1];
        cursors := cursors[|cursors| - 1 := cursor + 1];
        if id in active && cursor < |active[id]| && active[id][cursor].spec == spec {
          return Present(active[id][cursor].instance.value);
        }
      }
      return Absent(Loading);
    }

    /** `Runtime::reconcile`.  An unregistered type is a panic in the original, after
        the old list has already been taken out. */
    method Reconcile(id: string, specs: seq<ResourceSpec>) returns (ok: bool)
      modifies this`active, this`created
      ensures ok <==> forall k :: 0 <= k < |specs| && !Kept(old(Active(id)), specs, k) ==> specs[k].typeId in registry
      ensures ok ==> id in active && Reconciled(old(Active(id)), specs, active[id], registry, old(created))
      ensures ok ==> NewSerialsDistinct(old(Active(id)), specs, active[id])
      ensures ok ==> SerialsIssued(old(Active(id)), specs, active[id], created)
      ensures active == if ok then old(active)[id := active[id]] else old(active) - {id}
      ensures old(created) <= created
    {
      var before := if id in active then active[id] else [];
      active := active - {id};
      var final: seq<Slot> := [];
      for k := 0 to |specs|
        invariant |final| == k && old(created) <= created
        invariant active == old(active) - {id}
        invariant forall j :: 0 <= j < k ==> SlotOk(before, specs, j, final[j], registry, old(created))
        invariant NewSerialsDistinct(before, specs, final)
        invariant forall j :: 0 <= j < k && !Kept(before, specs, j) ==> final[j].instance.serial < created
      {
        var spec := specs[k];
        var slot;
        if k < |before| && before[k].spec == spec {
          slot := before[k];
        } else if spec.typeId in registry {
          slot := Slot(spec, Instance(created, registry[spec.typeId](spec.args)));
          created := created + 1;
        } else {
          assert !Kept(before, specs, k);
          return false;
        }
        final := final + [slot];
      }
      active := active[id := final];
      return true;
    }

    /** Run the closure of the innermost computation up to the first missing resource. */
    method Execute(id: string, closure: Closure) returns (answer: Avail)
      requires |computations| == |cursors| && Running(id, 0) && requested == []
      modifies this`cursors, this`requested
      ensures |cursors| == |old(cursors)| && cursors[..|cursors| - 1] == old(cursors[..|cursors| - 1])
      ensures Pass(requested, answer) == RunPass(closure, Active(id), [])
    {
      ghost var slots := Active(id);
      var got: seq<Json> := [];
      while closure(got).Need?
        invariant |got| <= |slots|
        invariant cursors == old(cursors)[|old(cursors)| - 1 := |got|]
        invariant RunPass(closure, slots, []) == Prepend(requested, RunPass(closure, slots, got))
        decreases |slots| - |got|
      {
        var spec := closure(got).spec;
        PassStep(closure, slots, got, requested);
        var value := Request(spec);
        if value.Absent? {
          return value;
        }
        got := got + [value.value];
      }
      answer := closure(got).value;
    }

    /** One forced recomputation of a closure that stops at the first missing
        resource: run it, then reconcile what it asked for. */
    method Recompute(id: string, closure: Closure) returns (answer: Avail, ok: bool)
      requires |computations| == |cursors|
      modifies this
      ensures computations == old(computations) && cursors == old(cursors)
      ensures Pass(requested, answer) == RunPass(closure, old(Active(id)), [])
      ensures ok <==> forall k :: 0 <= k < |requested| && !Kept(old(Active(id)), requested, k) ==>
                        requested[k].typeId in registry
      ensures ok ==> id in active && Reconciled(old(Active(id)), requested, active[id], registry, old(created))
      ensures ok ==> NewSerialsDistinct(old(Active(id)), requested, active[id])
      ensures ok ==> SerialsIssued(old(Active(id)), requested, active[id], created)
      ensures active == if ok then old(active)[id := active[id]] else old(active) - {id}
      ensures old(created) <= created
    {
      requested := [];
      computations, cursors := computations + [id], cursors + [0];
      answer := Execute(id, closure);
      computations, cursors := computations[..|computations| - 1], cursors[..|cursors| - 1];
      ok := Reconcile(id, requested);
    }
  }

  // ------------------------------------------------------------------ settling

  /** The closure needs exactly the resources of `path`, one after another, when it gets
      `values` for them, and then returns `value`. */
  ghost predicate Follows(closure: Closure, path: seq<ResourceSpec>, values: seq<Json>, value: Avail) {
    && |values| == |path|
    && (forall k :: 0 <= k < |path| ==> closure(values[..k]) == Need(path[k]))
    && closure(values) == Done(value)
  }

  /** The first `n` requests of `path` are there, with the values of `values`. */
  ghost predicate Ready(active: seq<Slot>, path: seq<ResourceSpec>, values: seq<Json>, n: nat)
    requires n <= |path| == |values|
  {
    n <= |active| && forall k :: 0 <= k < n ==> active[k].spec == path[k] && active[k].instance.value == values[k]
  }

  /** How far the list agrees with the path from its beginning. */
  ghost function Matching(active: seq<Slot>, path: seq<ResourceSpec>): (n: nat)
    ensures n <= |active| && n <= |path|
    ensures forall k :: 0 <= k < n ==> active[k].spec == path[k]
    ensures n == |active| || n == |path| || active[n].spec != path[n]
  {
    if active == [] || path == [] || active[0].spec != path[0] then 0 else 1 + Matching(active[1..], path[1..])
  }

  /** The values that the closure will get: instances that are already in place keep
      theirs, whatever has become of it; the others are made by the registry. */
  ghost predicate Supplied(registry: Registry, active: seq<Slot>, path: seq<ResourceSpec>, values: seq<Json>) {
    && |values| == |path|
    && (forall k :: 0 <= k < Matching(active, path) ==> values[k] == active[k].instance.value)
    && (forall k :: Matching(active, path) <= k < |path| ==>
          path[k].typeId in registry && values[k] == registry[path[k].typeId](path[k].args))
  }

  lemma MatchingIsLongest(active: seq<Slot>, path: seq<ResourceSpec>, n: nat)
    requires n <= |active| && n <= |path| && forall k :: 0 <= k < n ==> active[k].spec == path[k]
    ensures n <= Matching(active, path)
  {
  }

  /** The closure has read everything that is in place up to position `k`. */
  lemma {:induction false} PassFollows(
    closure: Closure, path: seq<ResourceSpec>, values: seq<Json>, value: Avail, active: seq<Slot>, k: nat)
    requires Follows(closure, path, values, value)
    requires Ready(active, path, values, Matching(active, path)) && k <= Matching(active, path)
    ensures var n := Matching(active, path);
            RunPass(closure, active, values[..k]) ==
            if n == |path| then Pass(path[k..], value) else Pass(path[k..n + 1], Absent(Loading))
    decreases |path| - k
  {
    var n := Matching(active, path);
    if k == |path| {
      assert values[..k] == values;
    } else if k < n {
      PassFollows(closure, path, values, value, active, k + 1);
      PassOneMore(closure, path, values, active, k);
    } else {
      assert path[k..k + 1] == [path[k]];
    }
  }

  lemma {:induction false} PassOneMore(
    closure: Closure, path: seq<ResourceSpec>, values: seq<Json>, active: seq<Slot>, k: nat)
    requires k < |path| && |path| == |values| && k < |active| && closure(values[..k]) == Need(path[k])
    requires active[k].spec == path[k] && active[k].instance.value == values[k]
    ensures RunPass(closure, active, values[..k]) ==
            Prepend([path[k]], RunPass(closure, active, values[..k + 1]))
    ensures forall j :: k < j <= |path| ==> [path[k]] + path[k + 1..j] == path[k..j]
  {
    assert values[..k] + [active[k].instance.value] == values[..k + 1];
  }

  /** One forced recomputation: what was in place stays, and one more request is in
      place unless all were. */
  lemma PassProgresses(
    closure: Closure, registry: Registry, path: seq<ResourceSpec>, values: seq<Json>, value: Avail,
    active: seq<Slot>, after: seq<Slot>, created: nat)
    requires Follows(closure, path, values, value) && Supplied(registry, active, path, values)
    requires Reconciled(active, RunPass(closure, active, []).requests, after, registry, created)
    ensures var n := Matching(active, path);
            && Supplied(registry, after, path, values)
            && Matching(after, path) == (if n < |path| then n + 1 else n)
            && (forall k :: 0 <= k < n ==> after[k] == active[k])
            && |after| == Matching(after, path)
            && (n == |path| ==> RunPass(closure, active, []) == Pass(path, value))
  {
    var n := Matching(active, path);
    assert values[..0] == [];
    PassFollows(closure, path, values, value, active, 0);
    var requests := RunPass(closure, active, []).requests;
    assert requests == path[..|requests|] && |requests| == if n == |path| then n else n + 1;
    forall k | 0 <= k < |after|
      ensures after[k].spec == path[k] && (k < n ==> after[k] == active[k])
      ensures k == n ==> path[k].typeId in registry && after[k].instance.value == registry[path[k].typeId](path[k].args)
    {
      assert SlotOk(active, requests, k, after[k], registry, created);
    }
    MatchingIsLongest(after, path, |after|);
  }

  /** A run of forced recomputations: `states[k]` is the list before the k-th. */
  ghost predicate Recomputations(closure: Closure, registry: Registry, states: seq<seq<Slot>>, created: seq<nat>) {
    && |states| == |created| + 1
    && forall k :: 0 <= k < |created| ==>
         Reconciled(states[k], RunPass(closure, states[k], []).requests, states[k + 1], registry, created[k])
  }

  lemma {:induction false} ReadyAfter(
    closure: Closure, registry: Registry, path: seq<ResourceSpec>, values: seq<Json>, value: Avail,
    states: seq<seq<Slot>>, created: seq<nat>, k: nat)
    requires Follows(closure, path, values, value) && Recomputations(closure, registry, states, created)
    requires Supplied(registry, states[0], path, values) && k <= |created|
    ensures Supplied(registry, states[k], path, values)
    ensures Matching(states[k], path) >= if k < |path| then k else |path|
  {
    if k > 0 {
      ReadyAfter(closure, registry, path, values, value, states, created, k - 1);
      ReadyNext(closure, registry, path, values, value, states[k - 1], states[k], created[k - 1]);
    }
  }

  lemma ReadyNext(closure: Closure, registry: Registry, path: seq<ResourceSpec>, values: seq<Json>, value: Avail,
                  active: seq<Slot>, after: seq<Slot>, created: nat)
    requires Follows(closure, path, values, value) && Supplied(registry, active, path, values)
    requires Reconciled(active, RunPass(closure, active, []).requests, after, registry, created)
    ensures Supplied(registry, after, path, values)
    ensures Matching(after, path) >= if Matching(active, path) < |path| then Matching(active, path) + 1 else |path|
  {
    PassProgresses(closure, registry, path, values, value, active, after, created);
  }

  /** A closure that needs n resources in sequence finds all of them after n forced
      recomputations, from whatever it held before, and from then on every further
      recomputation returns the final value and keeps every instance. */
  lemma SettlesAfterAsManyRunsAsNeeds(
    closure: Closure, registry: Registry, path: seq<ResourceSpec>, values: seq<Json>, value: Avail,
    states: seq<seq<Slot>>, created: seq<nat>, k: nat)
    requires Follows(closure, path, values, value) && Recomputations(closure, registry, states, created)
    requires Supplied(registry, states[0], path, values)
    requires |path| <= k < |created|
    ensures RunPass(closure, states[k], []) == Pass(path, value)
    ensures |path| == |states[k + 1]| <= |states[k]|
    ensures forall j :: 0 <= j < |path| ==> states[k + 1][j] == states[k][j]
  {
    ReadyAfter(closure, registry, path, values, value, states, created, k);
    PassProgresses(closure, registry, path, values, value, states[k], states[k + 1], created[k]);
  }
}
