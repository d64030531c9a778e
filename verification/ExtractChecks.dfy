/** Moving inline check definitions of a v3 hooks file into `[check.*]` tables. */
module ExtractChecks {
  import opened Wrappers
  import opened Text
  import opened FreshIds
  import Slug

  // ------------------------------------------------------------------ the document

  datatype Value = Str(s: string) | Other(n: int)

  /** The keys of a check, inline or in its own table. */
  type Definition = map<string, Value>

  /** An element of a workflow's `checks` array. */
  datatype Entry = Named(id: string) | Inline(def: Definition) | Unknown(n: int)

  /** A workflow; `Opaque` if it is no table or has no `checks` array. */
  datatype Workflow = Opaque | Listed(entries: seq<Entry>)

  datatype Root<T> = Missing | Table(value: T) | NoTable

  datatype Doc = Doc(
    version: Option<int>,
    check: Root<map<string, Definition>>,
    workflow: Root<seq<(string, Workflow)>>)

  datatype Error = WrongVersion(found: int) | NoCheckTable

  datatype Result<+T> = Ok(value: T) | Err(error: Error)

  /** A check that was moved: its new id, its definition and the workflow it came from. */
  datatype Moved = Moved(id: string, def: Definition, workflow: string)

  // ------------------------------------------------------------------- extraction

  /** Ids in use, unnamed checks so far, checks moved so far. */
  datatype Progress = Progress(taken: set<string>, unnamed: nat, moved: seq<Moved>)

  function LabelOf(def: Definition): string {
    if "label" in def && def["label"].Str? then def["label"].s else ""
  }

  function Prefixed(prefix: string, base: string): string {
    if prefix == "" then base else prefix + "-" + base
  }

  function BaseOf(prefix: string, def: Definition, unnamed: nat): string {
    var slug := Slug.Slugify(LabelOf(def));
    Prefixed(prefix, if slug == "" then "inline-" + Decimal(unnamed) else slug)
  }

  function Move(prefix: string, name: string, def: Definition, p: Progress): Progress {
    var id := FreshName(BaseOf(prefix, def, p.unnamed), p.taken);
    Progress(p.taken + {id},
             if Slug.Slugify(LabelOf(def)) == "" then p.unnamed + 1 else p.unnamed,
             p.moved + [Moved(id, def, name)])
  }

  function Last(p: Progress): string
    requires p.moved != []
  {
    p.moved[|p.moved| - 1].id
  }

  function ExtractEntries(prefix: string, name: string, entries: seq<Entry>, p: Progress): (seq<Entry>, Progress)
    decreases |entries|
  {
    if entries == [] then ([], p)
    else if entries[0].Inline? then
      var q := Move(prefix, name, entries[0].def, p);
      var (rest, end) := ExtractEntries(prefix, name, entries[1..], q);
      ([Named(Last(q))] + rest, end)
    else
      var (rest, end) := ExtractEntries(prefix, name, entries[1..], p);
      ([entries[0]] + rest, end)
  }

  function ExtractWorkflow(prefix: string, name: string, w: Workflow, p: Progress): (Workflow, Progress) {
    if w.Opaque? then (w, p)
    else
      var (entries, end) := ExtractEntries(prefix, name, w.entries, p);
      (Listed(entries), end)
  }

  function ExtractWorkflows(prefix: string, ws: seq<(string, Workflow)>, p: Progress)
    : (seq<(string, Workflow)>, Progress)
    decreases |ws|
  {
    if ws == [] then ([], p)
    else
      var (w, q) := ExtractWorkflow(prefix, ws[0].0, ws[0].1, p);
      var (rest, end) := ExtractWorkflows(prefix, ws[1..], q);
      ([(ws[0].0, w)] + rest, end)
  }

  function InsertAll(checks: map<string, Definition>, moved: seq<Moved>): map<string, Definition>
    decreases |moved|
  {
    if moved == [] then checks
    else InsertAll(checks, moved[..|moved| - 1])[moved[|moved| - 1].id := moved[|moved| - 1].def]
  }

  /** The ids that exist before anything is moved. */
  function ExistingIds(doc: Doc): set<string> {
    if doc.check.Table? then doc.check.value.Keys else {}
  }

  function Start(doc: Doc): Progress { Progress(ExistingIds(doc), 0, []) }

  /** The `check` table is created when it is missing. */
  function WithCheckTable(doc: Doc): Doc {
    if doc.check.Missing? then doc.(check := Table(map[])) else doc
  }

  function Extract(doc: Doc, prefix: string): Result<(Doc, seq<Moved>)> {
    var version := if doc.version.Some? then doc.version.value else 0;
    if version != 3 then Err(WrongVersion(version))
    else
      var result := WithCheckTable(doc);
      if !doc.workflow.Table? then Ok((result, []))
      else
        var (ws, end) := ExtractWorkflows(prefix, doc.workflow.value, Start(doc));
        if end.moved == [] then Ok((result.(workflow := Table(ws)), []))
        else if !result.check.Table? then Err(NoCheckTable)
        else
          Ok((result.(check := Table(InsertAll(result.check.value, end.moved)), workflow := Table(ws)), end.moved))
  }

  // --------------------------------------------------------------------- the loops

  /** One inline check: its slug or a running number, the prefix, and the suffix search. */
  method MoveInline(prefix: string, name: string, def: Definition, p: Progress) returns (id: string, q: Progress)
    ensures q == Move(prefix, name, def, p) && id == Last(q)
  {
    var base := Slug.SlugifyCheckId(LabelOf(def));
    var unnamed := p.unnamed;
    if base == "" {
      base := "inline-" + Decimal(unnamed);
      unnamed := unnamed + 1;
    }
    var n;
    id, n := FreshId(Prefixed(prefix, base), p.taken);
    FirstFreeIsFresh(Prefixed(prefix, base), p.taken, n);
    q := Progress(p.taken + {id}, unnamed, p.moved + [Moved(id, def, name)]);
  }

  method ExtractEntriesLoop(prefix: string, name: string, entries: seq<Entry>, start: Progress)
    returns (out: seq<Entry>, p: Progress)
    ensures (out, p) == ExtractEntries(prefix, name, entries, start)
  {
    out, p := [], start;
    ghost var whole := ExtractEntries(prefix, name, entries, start);
    assert entries[0..] == entries && [] + whole.0 == whole.0;
    for k := 0 to |entries|
      invariant Joined(out, ExtractEntries(prefix, name, entries[k..], p)) == whole
    {
      EntriesStep(prefix, name, entries, k, p, out);
      if entries[k].Inline? {
        var id;
        id, p := MoveInline(prefix, name, entries[k].def, p);
        out := out + [Named(id)];
      } else {
        out := out + [entries[k]];
      }
    }
    assert out + [] == out;
  }

  lemma WorkflowsStep(prefix: string, ws: seq<(string, Workflow)>, k: nat, p: Progress, before: seq<(string, Workflow)>)
    requires k < |ws|
    ensures var (w, q) := ExtractWorkflow(prefix, ws[k].0, ws[k].1, p);
            JoinedAll(before, ExtractWorkflows(prefix, ws[k..], p)) ==
            JoinedAll(before + [(ws[k].0, w)], ExtractWorkflows(prefix, ws[k + 1..], q))
  {
    assert ws[k..][1..] == ws[k + 1..];
    var (w, q) := ExtractWorkflow(prefix, ws[k].0, ws[k].1, p);
    var rest := ExtractWorkflows(prefix, ws[k + 1..], q).0;
    assert before + ([(ws[k].0, w)] + rest) == before + [(ws[k].0, w)] + rest;
  }

  function JoinedAll(before: seq<(string, Workflow)>, r: (seq<(string, Workflow)>, Progress))
    : (seq<(string, Workflow)>, Progress)
  {
    (before + r.0, r.1)
  }

  method ExtractWorkflowsLoop(prefix: string, ws: seq<(string, Workflow)>, start: Progress)
    returns (out: seq<(string, Workflow)>, p: Progress)
    ensures (out, p) == ExtractWorkflows(prefix, ws, start)
  {
    out, p := [], start;
    ghost var whole := ExtractWorkflows(prefix, ws, start);
    assert ws[0..] == ws && [] + whole.0 == whole.0;
    for k := 0 to |ws|
      invariant JoinedAll(out, ExtractWorkflows(prefix, ws[k..], p)) == whole
    {
      WorkflowsStep(prefix, ws, k, p, out);
      var w := ws[k].1;
      if w.Listed? {
        var entries;
        entries, p := ExtractEntriesLoop(prefix, ws[k].0, w.entries, p);
        w := Listed(entries);
      }
      out := out + [(ws[k].0, w)];
    }
    assert out + [] == out;
  }

  method InsertMoved(checks: map<string, Definition>, moved: seq<Moved>) returns (all: map<string, Definition>)
    ensures all == InsertAll(checks, moved)
  {
    all := checks;
    for k := 0 to |moved|
      invariant all == InsertAll(checks, moved[..k])
    {
      assert moved[..k + 1][..k] == moved[..k];
      all := all[moved[k].id := moved[k].def];
    }
    assert moved[..|moved|] == moved;
  }

  /** The whole rewriting. */
  method ExtractInlineChecks(doc: Doc, prefix: string) returns (r: Result<(Doc, seq<Moved>)>)
    ensures r == Extract(doc, prefix)
  {
    var version := if doc.version.Some? then doc.version.value else 0;
    if version != 3 {
      return Err(WrongVersion(version));
    }
    var result := WithCheckTable(doc);
    if !doc.workflow.Table? {
      return Ok((result, []));
    }
    var ws, end := ExtractWorkflowsLoop(prefix, doc.workflow.value, Start(doc));
    result := result.(workflow := Table(ws));
    if end.moved != [] {
      if !result.check.Table? {
        return Err(NoCheckTable);
      }
      var checks := InsertMoved(result.check.value, end.moved);
      result := result.(check := Table(checks));
    }
    return Ok((result, end.moved));
  }

  function Joined(before: seq<Entry>, r: (seq<Entry>, Progress)): (seq<Entry>, Progress) {
    (before + r.0, r.1)
  }

  lemma EntriesStep(prefix: string, name: string, entries: seq<Entry>, k: nat, p: Progress, before: seq<Entry>)
    requires k < |entries|
    ensures Joined(before, ExtractEntries(prefix, name, entries[k..], p)) ==
            if entries[k].Inline? then
              var q := Move(prefix, name, entries[k].def, p);
              Joined(before + [Named(Last(q))], ExtractEntries(prefix, name, entries[k + 1..], q))
            else
              Joined(before + [entries[k]], ExtractEntries(prefix, name, entries[k + 1..], p))
  {
    assert entries[k..][1..] == entries[k + 1..];
    var q := if entries[k].Inline? then Move(prefix, name, entries[k].def, p) else p;
    var first := if entries[k].Inline? then Named(Last(q)) else entries[k];
    var rest := ExtractEntries(prefix, name, entries[k + 1..], q).0;
    assert before + ([first] + rest) == before + [first] + rest;
  }

  // ------------------------------------------------------------ what is kept, per entry

  /** What an element of a workflow stands for. */
  function Meaning(checks: map<string, Definition>, e: Entry): Option<Definition> {
    match e
    case Named(id) => if id in checks then Some(checks[id]) else None
    case Inline(def) => Some(def)
    case Unknown(_) => None
  }

  predicate In(moved: seq<Moved>, id: string, def: Definition) {
    exists k :: 0 <= k < |moved| && moved[k].id == id && moved[k].def == def
  }

  function Ids(moved: seq<Moved>): set<string> {
    set k | 0 <= k < |moved| :: moved[k].id
  }

  /** An inline check became a reference to its moved definition; everything else is as
      it was. */
  predicate EntryMoved(e: Entry, f: Entry, moved: seq<Moved>) {
    if e.Inline? then f.Named? && In(moved, f.id, e.def) else f == e
  }

  ghost predicate EntriesMoved(es: seq<Entry>, fs: seq<Entry>, moved: seq<Moved>) {
    |fs| == |es| && forall k :: 0 <= k < |es| ==> EntryMoved(es[k], fs[k], moved)
  }

  ghost predicate WorkflowMoved(w: Workflow, v: Workflow, moved: seq<Moved>) {
    if w.Opaque? then v == w else v.Listed? && EntriesMoved(w.entries, v.entries, moved)
  }

  ghost predicate WorkflowsMoved(ws: seq<(string, Workflow)>, vs: seq<(string, Workflow)>, moved: seq<Moved>) {
    && |vs| == |ws|
    && forall k :: 0 <= k < |ws| ==> vs[k].0 == ws[k].0 && WorkflowMoved(ws[k].1, vs[k].1, moved)
  }

  predicate DistinctIds(moved: seq<Moved>) {
    forall i, j :: 0 <= i < j < |moved| ==> moved[i].id != moved[j].id
  }

  /** The moved checks have ids of their own, new ones. */
  ghost predicate Sound(existing: set<string>, p: Progress) {
    && p.taken == existing + Ids(p.moved)
    && DistinctIds(p.moved)
    && forall k :: 0 <= k < |p.moved| ==> p.moved[k].id !in existing
  }

  ghost predicate Extends(p: Progress, q: Progress) {
    |p.moved| <= |q.moved| && q.moved[..|p.moved|] == p.moved
  }

  lemma MoveIsSound(existing: set<string>, prefix: string, name: string, def: Definition, p: Progress)
    requires Sound(existing, p)
    ensures var q := Move(prefix, name, def, p);
            Sound(existing, q) && Extends(p, q) && In(q.moved, Last(q), def)
  {
    var q := Move(prefix, name, def, p);
    var n := |p.moved|;
    assert q.moved[n].id == Last(q) && q.moved[n].def == def;
    forall k | 0 <= k < n ensures q.moved[k].id != Last(q) {
      assert q.moved[k] == p.moved[k] && p.moved[k].id in Ids(p.moved);
    }
    IdsAppend(p.moved, q.moved[n]);
  }

  lemma IdsAppend(moved: seq<Moved>, m: Moved)
    ensures Ids(moved + [m]) == Ids(moved) + {m.id}
  {
    var longer := moved + [m];
    assert longer[|moved|] == m;
    forall id | id in Ids(moved) ensures id in Ids(longer) {
      var k :| 0 <= k < |moved| && moved[k].id == id;
      assert longer[k] == moved[k];
    }
  }

  lemma InExtends(p: Progress, q: Progress, id: string, def: Definition)
    requires Extends(p, q) && In(p.moved, id, def)
    ensures In(q.moved, id, def)
  {
    var k :| 0 <= k < |p.moved| && p.moved[k].id == id && p.moved[k].def == def;
    assert q.moved[..|p.moved|][k] == q.moved[k];
  }

  lemma ExtendsTransitive(p: Progress, q: Progress, r: Progress)
    requires Extends(p, q) && Extends(q, r)
    ensures Extends(p, r)
  {
    assert r.moved[..|p.moved|] == r.moved[..|q.moved|][..|p.moved|];
  }

  lemma {:induction false} EntriesSound(
    existing: set<string>, prefix: string, name: string, es: seq<Entry>, p: Progress)
    requires Sound(existing, p)
    ensures var (fs, q) := ExtractEntries(prefix, name, es, p);
            Sound(existing, q) && Extends(p, q) && EntriesMoved(es, fs, q.moved)
    decreases |es|
  {
    var (fs, end) := ExtractEntries(prefix, name, es, p);
    if es != [] {
      var q := if es[0].Inline? then Move(prefix, name, es[0].def, p) else p;
      if es[0].Inline? {
        MoveIsSound(existing, prefix, name, es[0].def, p);
      }
      EntriesSound(existing, prefix, name, es[1..], q);
      ExtendsTransitive(p, q, end);
      if es[0].Inline? {
        InExtends(q, end, Last(q), es[0].def);
      }
      assert fs[1..] == ExtractEntries(prefix, name, es[1..], q).0;
      forall k | 0 <= k < |es| ensures EntryMoved(es[k], fs[k], end.moved) {
        if k > 0 {
          assert es[k] == es[1..][k - 1] && fs[k] == fs[1..][k - 1];
        }
      }
    }
  }

  lemma MovedExtends(w: Workflow, v: Workflow, p: Progress, q: Progress)
    requires WorkflowMoved(w, v, p.moved) && Extends(p, q)
    ensures WorkflowMoved(w, v, q.moved)
  {
    if w.Listed? {
      forall k | 0 <= k < |w.entries| ensures EntryMoved(w.entries[k], v.entries[k], q.moved) {
        assert EntryMoved(w.entries[k], v.entries[k], p.moved);
        if w.entries[k].Inline? {
          InExtends(p, q, v.entries[k].id, w.entries[k].def);
        }
      }
    }
  }

  lemma {:induction false} WorkflowsSound(
    existing: set<string>, prefix: string, ws: seq<(string, Workflow)>, p: Progress)
    requires Sound(existing, p)
    ensures var (vs, q) := ExtractWorkflows(prefix, ws, p);
            Sound(existing, q) && Extends(p, q) && WorkflowsMoved(ws, vs, q.moved)
    decreases |ws|
  {
    var (vs, end) := ExtractWorkflows(prefix, ws, p);
    if ws != [] {
      var (v, q) := ExtractWorkflow(prefix, ws[0].0, ws[0].1, p);
      if ws[0].1.Listed? {
        EntriesSound(existing, prefix, ws[0].0, ws[0].1.entries, p);
      }
      WorkflowsSound(existing, prefix, ws[1..], q);
      ExtendsTransitive(p, q, end);
      MovedExtends(ws[0].1, v, q, end);
      assert vs[1..] == ExtractWorkflows(prefix, ws[1..], q).0;
      forall k | 0 <= k < |ws| ensures vs[k].0 == ws[k].0 && WorkflowMoved(ws[k].1, vs[k].1, end.moved) {
        if k > 0 {
          assert ws[k] == ws[1..][k - 1] && vs[k] == vs[1..][k - 1];
        }
      }
    }
  }

  // ---------------------------------------------------------------- the check table

  lemma {:induction false} InsertKeeps(checks: map<string, Definition>, moved: seq<Moved>, id: string)
    requires forall k :: 0 <= k < |moved| ==> moved[k].id != id
    ensures id in InsertAll(checks, moved) <==> id in checks
    ensures id in checks ==> InsertAll(checks, moved)[id] == checks[id]
    decreases |moved|
  {
    if moved != [] {
      InsertKeeps(checks, moved[..|moved| - 1], id);
    }
  }

  lemma {:induction false} InsertHas(checks: map<string, Definition>, moved: seq<Moved>, k: nat)
    requires DistinctIds(moved) && k < |moved|
    ensures moved[k].id in InsertAll(checks, moved) && InsertAll(checks, moved)[moved[k].id] == moved[k].def
    decreases |moved|
  {
    if k < |moved| - 1 {
      InsertHas(checks, moved[..|moved| - 1], k);
    }
  }

  lemma InsertedChecks(checks: map<string, Definition>, moved: seq<Moved>)
    requires DistinctIds(moved) && forall k :: 0 <= k < |moved| ==> moved[k].id !in checks
    ensures var all := InsertAll(checks, moved);
            && all.Keys == checks.Keys + Ids(moved)
            && (forall id :: id in checks ==> all[id] == checks[id])
            && (forall k :: 0 <= k < |moved| ==> moved[k].id in all && all[moved[k].id] == moved[k].def)
  {
    var all := InsertAll(checks, moved);
    forall k | 0 <= k < |moved| ensures moved[k].id in all && all[moved[k].id] == moved[k].def {
      InsertHas(checks, moved, k);
    }
    forall id ensures id in all <==> id in checks || id in Ids(moved)
              ensures id in checks ==> id in all && all[id] == checks[id]
    {
      if id !in Ids(moved) {
        InsertKeeps(checks, moved, id);
      }
    }
  }

  // ------------------------------------------------------- the new names, without moving

  /** The inline checks of an array, and of all workflows, in order. */
  function InlineOf(es: seq<Entry>): seq<Definition> {
    if es == [] then [] else (if es[0].Inline? then [es[0].def] else []) + InlineOf(es[1..])
  }

  function InlineIn(ws: seq<(string, Workflow)>): seq<Definition> {
    if ws == [] then []
    else (if ws[0].1.Listed? then InlineOf(ws[0].1.entries) else []) + InlineIn(ws[1..])
  }

  /** What naming depends on: the names in use and the unnamed checks so far. */
  datatype Naming = Naming(taken: set<string>, unnamed: nat)

  /** Each inline check gets the first free candidate for its base: its slug, or a
      running number if it has none. */
  function NewNames(prefix: string, defs: seq<Definition>, s: Naming): (seq<string>, Naming)
    decreases |defs|
  {
    if defs == [] then ([], s)
    else
      var id := FreshName(BaseOf(prefix, defs[0], s.unnamed), s.taken);
      var next := Naming(s.taken + {id}, if Slug.Slugify(LabelOf(defs[0])) == "" then s.unnamed + 1 else s.unnamed);
      var (rest, end) := NewNames(prefix, defs[1..], next);
      ([id] + rest, end)
  }

  lemma {:induction false} NewNamesConcat(prefix: string, a: seq<Definition>, b: seq<Definition>, s: Naming)
    ensures var (first, middle) := NewNames(prefix, a, s);
            var (second, end) := NewNames(prefix, b, middle);
            NewNames(prefix, a + b, s) == (first + second, end)
    decreases |a|
  {
    if a == [] {
      assert a + b == b;
      assert [] + NewNames(prefix, b, s).0 == NewNames(prefix, b, s).0;
    } else {
      var id := FreshName(BaseOf(prefix, a[0], s.unnamed), s.taken);
      var next := Naming(s.taken + {id}, if Slug.Slugify(LabelOf(a[0])) == "" then s.unnamed + 1 else s.unnamed);
      assert (a + b)[1..] == a[1..] + b;
      NewNamesConcat(prefix, a[1..], b, next);
      var (first, middle) := NewNames(prefix, a[1..], next);
      assert [id] + (first + NewNames(prefix, b, middle).0) == [id] + first + NewNames(prefix, b, middle).0;
    }
  }

  function NamesOf(moved: seq<Moved>): seq<string> {
    seq(|moved|, k requires 0 <= k < |moved| => moved[k].id)
  }

  /** Moving the checks `defs` takes `p` to `q` and names them as `NewNames` says. */
  ghost predicate NamedAs(prefix: string, defs: seq<Definition>, p: Progress, q: Progress) {
    var (ids, end) := NewNames(prefix, defs, Naming(p.taken, p.unnamed));
    NamesOf(q.moved) == NamesOf(p.moved) + ids && end == Naming(q.taken, q.unnamed)
  }

  lemma NamedAsNothing(prefix: string, p: Progress)
    ensures NamedAs(prefix, [], p, p)
  {
    assert NamesOf(p.moved) + [] == NamesOf(p.moved);
  }

  lemma NamedAsMove(prefix: string, name: string, def: Definition, p: Progress)
    ensures NamedAs(prefix, [def], p, Move(prefix, name, def, p))
  {
    var q := Move(prefix, name, def, p);
    assert [def][1..] == [] && [Last(q)] + [] == [Last(q)];
    assert NamesOf(q.moved) == NamesOf(p.moved) + [Last(q)];
  }

  lemma NamedAsThen(prefix: string, a: seq<Definition>, b: seq<Definition>, p: Progress, q: Progress, r: Progress)
    requires NamedAs(prefix, a, p, q) && NamedAs(prefix, b, q, r)
    ensures NamedAs(prefix, a + b, p, r)
  {
    var s, t := Naming(p.taken, p.unnamed), Naming(q.taken, q.unnamed);
    NewNamesConcat(prefix, a, b, s);
    NamesConcat(NamesOf(p.moved), NewNames(prefix, a, s).0, NewNames(prefix, b, t).0);
  }

  lemma NamesConcat(a: seq<string>, b: seq<string>, c: seq<string>)
    ensures a + b + c == a + (b + c)
  {
  }

  lemma {:induction false} EntriesNamed(prefix: string, name: string, es: seq<Entry>, p: Progress)
    ensures NamedAs(prefix, InlineOf(es), p, ExtractEntries(prefix, name, es, p).1)
    decreases |es|
  {
    if es == [] {
      NamedAsNothing(prefix, p);
    } else if es[0].Inline? {
      var q := Move(prefix, name, es[0].def, p);
      NamedAsMove(prefix, name, es[0].def, p);
      EntriesNamed(prefix, name, es[1..], q);
      NamedAsThen(prefix, [es[0].def], InlineOf(es[1..]), p, q, ExtractEntries(prefix, name, es, p).1);
    } else {
      EntriesNamed(prefix, name, es[1..], p);
      assert [] + InlineOf(es[1..]) == InlineOf(es[1..]);
    }
  }

  lemma {:induction false} WorkflowsNamed(prefix: string, ws: seq<(string, Workflow)>, p: Progress)
    ensures NamedAs(prefix, InlineIn(ws), p, ExtractWorkflows(prefix, ws, p).1)
    decreases |ws|
  {
    if ws == [] {
      NamedAsNothing(prefix, p);
    } else {
      var q := ExtractWorkflow(prefix, ws[0].0, ws[0].1, p).1;
      var first := if ws[0].1.Listed? then InlineOf(ws[0].1.entries) else [];
      if ws[0].1.Listed? {
        EntriesNamed(prefix, ws[0].0, ws[0].1.entries, p);
      } else {
        NamedAsNothing(prefix, p);
      }
      WorkflowsNamed(prefix, ws[1..], q);
      NamedAsThen(prefix, first, InlineIn(ws[1..]), p, q, ExtractWorkflows(prefix, ws, p).1);
    }
  }

  // ------------------------------------------------------------------- main results

  /** The ids given to the moved checks are the new names of the inline checks. */
  lemma MovedIdsAreNewNames(doc: Doc, prefix: string)
    requires Extract(doc, prefix).Ok?
    ensures var names := NewNames(prefix, InlineIn(Workflows(doc)), Naming(ExistingIds(doc), 0)).0;
            var moved := Extract(doc, prefix).value.1;
            NamesOf(moved) == names && (forall id :: id in Ids(moved) <==> id in names)
  {
    var moved := Extract(doc, prefix).value.1;
    WorkflowsNamed(prefix, Workflows(doc), Start(doc));
    assert NamesOf(Start(doc).moved) == [];
    forall id ensures id in Ids(moved) <==> id in NamesOf(moved) {
      if id in Ids(moved) {
        var k :| 0 <= k < |moved| && moved[k].id == id;
        assert NamesOf(moved)[k] == id;
      }
    }
  }

  /** The definitions by name; a document without a check table has none. */
  function Checks(doc: Doc): map<string, Definition> {
    if doc.check.Table? then doc.check.value else map[]
  }

  function Workflows(doc: Doc): seq<(string, Workflow)> {
    if doc.workflow.Table? then doc.workflow.value else []
  }

  /** A reference to no check that happens to be the first free name for one of the
      inline checks. */
  predicate Captured(doc: Doc, prefix: string, e: Entry) {
    && e.Named? && e.id !in Checks(doc)
    && e.id in NewNames(prefix, InlineIn(Workflows(doc)), Naming(ExistingIds(doc), 0)).0
  }

  /** Extraction succeeds on v3 documents, unless something must be moved and `check`
      is not a table.  Existing checks are untouched; the new ids are pairwise distinct
      and new; every workflow keeps its elements in order, with inline checks turned
      into references to their definitions. */
  lemma ExtractionIsFaithful(doc: Doc, prefix: string)
    requires Extract(doc, prefix).Ok?
    ensures var (result, moved) := Extract(doc, prefix).value;
            && doc.version == Some(3) && result.version == doc.version
            && WorkflowsMoved(Workflows(doc), Workflows(result), moved)
            && DistinctIds(moved) && (forall k :: 0 <= k < |moved| ==> moved[k].id !in Checks(doc))
            && Checks(result).Keys == Checks(doc).Keys + Ids(moved)
            && (forall id :: id in Checks(doc) ==> Checks(result)[id] == Checks(doc)[id])
            && (forall k :: 0 <= k < |moved| ==>
                  moved[k].id in Checks(result) && Checks(result)[moved[k].id] == moved[k].def)
            && (doc.workflow.Table? <==> result.workflow.Table?)
            && (!doc.workflow.Table? ==> result.workflow == doc.workflow)
            && (if doc.check.NoTable? then result.check == doc.check else result.check.Table?)
  {
    var (result, moved) := Extract(doc, prefix).value;
    assert Sound(ExistingIds(doc), Start(doc));
    if doc.workflow.Table? {
      WorkflowsSound(ExistingIds(doc), prefix, doc.workflow.value, Start(doc));
      InsertedChecks(Checks(doc), moved);
    }
  }

  /** Element by element: a moved document means the same, except exactly for dangling
      references that a new id captures. */
  lemma MeaningKeptIff(doc: Doc, prefix: string, w: nat, k: nat)
    requires Extract(doc, prefix).Ok?
    requires w < |Workflows(doc)| && Workflows(doc)[w].1.Listed? && k < |Workflows(doc)[w].1.entries|
    ensures var (result, moved) := Extract(doc, prefix).value;
            && |Workflows(result)| == |Workflows(doc)| && Workflows(result)[w].1.Listed?
            && |Workflows(result)[w].1.entries| == |Workflows(doc)[w].1.entries|
            && (Meaning(Checks(result), Workflows(result)[w].1.entries[k])
                  == Meaning(Checks(doc), Workflows(doc)[w].1.entries[k])
                <==> !Captured(doc, prefix, Workflows(doc)[w].1.entries[k]))
  {
    var (result, moved) := Extract(doc, prefix).value;
    ExtractionIsFaithful(doc, prefix);
    MovedIdsAreNewNames(doc, prefix);
    assert WorkflowMoved(Workflows(doc)[w].1, Workflows(result)[w].1, moved);
    var e, f := Workflows(doc)[w].1.entries[k], Workflows(result)[w].1.entries[k];
    assert EntryMoved(e, f, moved);
  }

  /** The element `k` of the workflow `w`, if there is one. */
  function EntryAt(doc: Doc, w: nat, k: nat): Option<Entry> {
    if w < |Workflows(doc)| && Workflows(doc)[w].1.Listed? && k < |Workflows(doc)[w].1.entries|
    then Some(Workflows(doc)[w].1.entries[k]) else None
  }

  /** Every reference names a check, as validation of a v3 file demands. */
  ghost predicate NoDangling(doc: Doc) {
    forall w: nat, k: nat ::
      EntryAt(doc, w, k).Some? && EntryAt(doc, w, k).value.Named? ==> EntryAt(doc, w, k).value.id in Checks(doc)
  }

  /** There is something to move. */
  ghost predicate HasInline(doc: Doc) {
    exists w: nat, k: nat :: EntryAt(doc, w, k).Some? && EntryAt(doc, w, k).value.Inline?
  }

  /** The list of definitions that a workflow runs. */
  function MeaningOf(checks: map<string, Definition>, w: Workflow): seq<Option<Definition>> {
    if w.Opaque? then [] else seq(|w.entries|, k requires 0 <= k < |w.entries| => Meaning(checks, w.entries[k]))
  }

  /** A valid file keeps the resolved list of every workflow, in order. */
  lemma ValidFilesKeepMeaning(doc: Doc, prefix: string, w: nat)
    requires Extract(doc, prefix).Ok? && NoDangling(doc) && w < |Workflows(doc)|
    ensures var (result, moved) := Extract(doc, prefix).value;
            && |Workflows(result)| == |Workflows(doc)|
            && MeaningOf(Checks(result), Workflows(result)[w].1) == MeaningOf(Checks(doc), Workflows(doc)[w].1)
  {
    var (result, moved) := Extract(doc, prefix).value;
    ExtractionIsFaithful(doc, prefix);
    var a, b := Workflows(doc)[w].1, Workflows(result)[w].1;
    assert WorkflowMoved(a, b, moved);
    if a.Listed? {
      forall k | 0 <= k < |a.entries|
        ensures Meaning(Checks(result), b.entries[k]) == Meaning(Checks(doc), a.entries[k])
      {
        MeaningKeptIff(doc, prefix, w, k);
        assert EntryAt(doc, w, k) == Some(a.entries[k]);
      }
    }
  }

  /** Extraction fails exactly on other versions, and when there is something to move
      but `check` is not a table. */
  lemma ExtractionFailsIff(doc: Doc, prefix: string)
    ensures Extract(doc, prefix).Err? <==> doc.version != Some(3) || (doc.check.NoTable? && HasInline(doc))
  {
    if doc.version == Some(3) && doc.workflow.Table? {
      MovesIff(doc, prefix);
    }
  }

  lemma MovesIff(doc: Doc, prefix: string)
    requires doc.workflow.Table?
    ensures ExtractWorkflows(prefix, Workflows(doc), Start(doc)).1.moved != [] <==> HasInline(doc)
  {
    var ws := Workflows(doc);
    var (vs, end) := ExtractWorkflows(prefix, ws, Start(doc));
    assert Sound(ExistingIds(doc), Start(doc));
    WorkflowsSound(ExistingIds(doc), prefix, ws, Start(doc));
    if HasInline(doc) {
      var w: nat, k: nat :| EntryAt(doc, w, k).Some? && EntryAt(doc, w, k).value.Inline?;
      assert WorkflowMoved(ws[w].1, vs[w].1, end.moved);
      assert EntryMoved(ws[w].1.entries[k], vs[w].1.entries[k], end.moved);
    } else {
      forall w | 0 <= w < |ws| && ws[w].1.Listed? ensures NoInline(ws[w].1.entries) {
        forall k | 0 <= k < |ws[w].1.entries| ensures !ws[w].1.entries[k].Inline? {
          assert EntryAt(doc, w, k) == Some(ws[w].1.entries[k]);
        }
      }
      NothingToMove(prefix, ws, Start(doc));
    }
  }

  ghost predicate NoInline(es: seq<Entry>) {
    forall k :: 0 <= k < |es| ==> !es[k].Inline?
  }

  lemma {:induction false} NoEntryMoves(prefix: string, name: string, es: seq<Entry>, p: Progress)
    requires NoInline(es)
    ensures ExtractEntries(prefix, name, es, p) == (es, p)
    decreases |es|
  {
    if es != [] {
      NoEntryMoves(prefix, name, es[1..], p);
      assert es == [es[0]] + es[1..];
    }
  }

  lemma {:induction false} NothingToMove(prefix: string, ws: seq<(string, Workflow)>, p: Progress)
    requires forall w :: 0 <= w < |ws| && ws[w].1.Listed? ==> NoInline(ws[w].1.entries)
    ensures ExtractWorkflows(prefix, ws, p) == (ws, p)
    decreases |ws|
  {
    if ws != [] {
      if ws[0].1.Listed? {
        NoEntryMoves(prefix, ws[0].0, ws[0].1.entries, p);
      }
      NothingToMove(prefix, ws[1..], p);
      assert ws == [ws[0]] + ws[1..];
    }
  }

  /** A second extraction, with whatever prefix, changes nothing. */
  lemma SecondExtractionIsIdle(doc: Doc, prefix: string, again: string)
    requires Extract(doc, prefix).Ok?
    ensures var result := Extract(doc, prefix).value.0; Extract(result, again) == Ok((result, []))
  {
    var (result, moved) := Extract(doc, prefix).value;
    ExtractionIsFaithful(doc, prefix);
    if result.workflow.Table? {
      var ws := result.workflow.value;
      forall w | 0 <= w < |ws| && ws[w].1.Listed? ensures NoInline(ws[w].1.entries) {
        assert WorkflowMoved(Workflows(doc)[w].1, ws[w].1, moved);
        forall k | 0 <= k < |ws[w].1.entries| ensures !ws[w].1.entries[k].Inline? {
          assert EntryMoved(Workflows(doc)[w].1.entries[k], ws[w].1.entries[k], moved);
        }
      }
      NothingToMove(again, ws, Start(result));
    }
  }

  // ------------------------------------------------------------- a captured reference

  const LINT: Definition := map["label" := Str("lint")]

  /** A dangling reference "lint" before an inline check labelled "lint". */
  function DanglingDoc(): Doc {
    Doc(Some(3), Missing, Table([("ci", Listed([Named("lint"), Inline(LINT)]))]))
  }

  lemma LintMoves(p: Progress)
    requires "lint" !in p.taken
    ensures Move("", "ci", LINT, p) == Progress(p.taken + {"lint"}, p.unnamed, p.moved + [Moved("lint", LINT, "ci")])
  {
    Slug.RunsOfWord("", "lint", "");
    assert "lint" + "" == "lint" && "" + "lint" == "lint";
    assert Slug.Slugify("lint") == "lint";
    assert FirstFree("lint", p.taken, 0);
    FirstFreeIsFresh("lint", p.taken, 0);
  }

  lemma OneInline(prefix: string, name: string, def: Definition, p: Progress)
    ensures var q := Move(prefix, name, def, p);
            ExtractEntries(prefix, name, [Inline(def)], p) == ([Named(Last(q))], q)
  {
    var q := Move(prefix, name, def, p);
    assert [Inline(def)][1..] == [];
    assert ExtractEntries(prefix, name, [], q) == ([], q);
    assert [Named(Last(q))] + [] == [Named(Last(q))];
  }

  lemma NamedFirst(prefix: string, name: string, id: string, es: seq<Entry>, p: Progress)
    ensures var (rest, q) := ExtractEntries(prefix, name, es, p);
            ExtractEntries(prefix, name, [Named(id)] + es, p) == ([Named(id)] + rest, q)
  {
    assert ([Named(id)] + es)[1..] == es;
  }

  lemma OneWorkflow(prefix: string, name: string, w: Workflow, p: Progress)
    ensures var (v, q) := ExtractWorkflow(prefix, name, w, p);
            ExtractWorkflows(prefix, [(name, w)], p) == ([(name, v)], q)
  {
    var (v, q) := ExtractWorkflow(prefix, name, w, p);
    assert [(name, w)][1..] == [];
    assert ExtractWorkflows(prefix, [], q) == ([], q);
    assert [(name, v)] + [] == [(name, v)];
  }

  /** The reference that meant nothing now means the moved check. */
  lemma ReferenceIsCaptured()
    ensures var doc := DanglingDoc();
            && Extract(doc, "").Ok?
            && Meaning(Checks(doc), Named("lint")) == None
            && Workflows(Extract(doc, "").value.0) == [("ci", Listed([Named("lint"), Named("lint")]))]
            && Meaning(Checks(Extract(doc, "").value.0), Named("lint")) == Some(LINT)
  {
    var doc := DanglingDoc();
    var ws, start := Workflows(doc), Start(doc);
    var end := Move("", "ci", LINT, start);
    LintMoves(start);
    OneInline("", "ci", LINT, start);
    NamedFirst("", "ci", "lint", [Inline(LINT)], start);
    assert [Named("lint")] + [Inline(LINT)] == [Named("lint"), Inline(LINT)];
    var w := Listed([Named("lint"), Inline(LINT)]);
    assert [Named("lint")] + [Named(Last(end))] == [Named("lint"), Named("lint")];
    assert ExtractWorkflow("", "ci", w, start) == (Listed([Named("lint"), Named("lint")]), end);
    OneWorkflow("", "ci", w, start);
    assert end.moved == [Moved("lint", LINT, "ci")] && end.moved[..0] == [];
    assert InsertAll(map[], end.moved) == map["lint" := LINT];
  }
}
