/** The moved checks one by one: which they are, in which order, and what each is called. */
module ExtractNames {
  import opened Wrappers
  import opened Text
  import opened FreshIds
  import opened ExtractChecks
  import Slug

  // ---------------------------------------------------------------- which checks move

  /** The workflow and the definition of each inline check, in document order. */
  function InlineWith(name: string, es: seq<Entry>): seq<(string, Definition)> {
    if es == [] then []
    else (if es[0].Inline? then [(name, es[0].def)] else []) + InlineWith(name, es[1..])
  }

  function AllInline(ws: seq<(string, Workflow)>): seq<(string, Definition)> {
    if ws == [] then []
    else (if ws[0].1.Listed? then InlineWith(ws[0].0, ws[0].1.entries) else []) + AllInline(ws[1..])
  }

  function Origins(moved: seq<Moved>): seq<(string, Definition)> {
    seq(|moved|, k requires 0 <= k < |moved| => (moved[k].workflow, moved[k].def))
  }

  lemma OriginsAppend(moved: seq<Moved>, m: Moved)
    ensures Origins(moved + [m]) == Origins(moved) + [(m.workflow, m.def)]
  {
  }

  lemma {:induction false} EntriesOrigins(prefix: string, name: string, es: seq<Entry>, p: Progress)
    ensures Origins(ExtractEntries(prefix, name, es, p).1.moved) == Origins(p.moved) + InlineWith(name, es)
    decreases |es|
  {
    if es == [] {
      assert Origins(p.moved) + [] == Origins(p.moved);
    } else {
      var q := if es[0].Inline? then Move(prefix, name, es[0].def, p) else p;
      EntriesOrigins(prefix, name, es[1..], q);
      if es[0].Inline? {
        OriginsAppend(p.moved, q.moved[|p.moved|]);
        assert q.moved == p.moved + [q.moved[|p.moved|]];
        assert Origins(p.moved) + [(name, es[0].def)] + InlineWith(name, es[1..]) ==
               Origins(p.moved) + ([(name, es[0].def)] + InlineWith(name, es[1..]));
      } else {
        assert [] + InlineWith(name, es[1..]) == InlineWith(name, es[1..]);
      }
    }
  }

  lemma WorkflowOrigins(prefix: string, name: string, w: Workflow, p: Progress)
    ensures Origins(ExtractWorkflow(prefix, name, w, p).1.moved) ==
            Origins(p.moved) + (if w.Listed? then InlineWith(name, w.entries) else [])
  {
    if w.Listed? {
      EntriesOrigins(prefix, name, w.entries, p);
    } else {
      assert Origins(p.moved) + [] == Origins(p.moved);
    }
  }

  lemma Regrouped<T>(a: seq<T>, b: seq<T>, c: seq<T>)
    ensures a + b + c == a + (b + c)
  {
  }

  lemma {:induction false} WorkflowsOrigins(prefix: string, ws: seq<(string, Workflow)>, p: Progress)
    ensures Origins(ExtractWorkflows(prefix, ws, p).1.moved) == Origins(p.moved) + AllInline(ws)
    decreases |ws|
  {
    if ws == [] {
      assert Origins(p.moved) + [] == Origins(p.moved);
    } else {
      var first := if ws[0].1.Listed? then InlineWith(ws[0].0, ws[0].1.entries) else [];
      WorkflowOrigins(prefix, ws[0].0, ws[0].1, p);
      WorkflowsOrigins(prefix, ws[1..], ExtractWorkflow(prefix, ws[0].0, ws[0].1, p).1);
      Regrouped(Origins(p.moved), first, AllInline(ws[1..]));
    }
  }

  /** The list of moved checks is the list of inline checks, each with its workflow and its
      definition, in document order. */
  lemma MovedAreInline(doc: Doc, prefix: string)
    requires Extract(doc, prefix).Ok?
    ensures Origins(Extract(doc, prefix).value.1) == AllInline(Workflows(doc))
  {
    WorkflowsOrigins(prefix, Workflows(doc), Start(doc));
    assert Origins([]) + AllInline(Workflows(doc)) == AllInline(Workflows(doc));
  }

  // ---------------------------------------------------------------- what they are called

  /** The label of a check: its text, or nothing when there is no text under the key. */
  predicate Labelled(def: Definition, text: string) {
    if "label" in def && def["label"].Str? then def["label"] == Str(text) else text == ""
  }

  /** Its label has no letter and no digit. */
  ghost predicate Nameless(def: Definition) {
    forall text :: Labelled(def, text) ==> forall i :: 0 <= i < |text| ==> !IsAlphanumeric(text[i])
  }

  /** How many checks are numbered. */
  ghost function Numbered(defs: seq<Definition>): nat {
    if defs == [] then 0 else (if Nameless(defs[0]) then 1 else 0) + Numbered(defs[1..])
  }

  /** What a check is called by itself: the slug of its label, or a running number. */
  ghost predicate Word(defs: seq<Definition>, k: nat, word: string)
    requires k < |defs|
  {
    if Nameless(defs[k]) then word == "inline-" + Decimal(Numbered(defs[..k]))
    else exists text :: Labelled(defs[k], text) && word == Slug.Slugify(text)
  }

  /** The `n`-th way to call it, behind the prefix if there is one. */
  function Called(prefix: string, word: string, n: nat): string {
    (if prefix == "" then word else prefix + "-" + word) + (if n == 0 then "" else "-" + Decimal(n))
  }

  /** Its name is the first way to call it that no existing check and no earlier name has. */
  ghost predicate NamedFirst(prefix: string, defs: seq<Definition>, existing: set<string>, names: seq<string>, k: nat)
    requires k < |defs| == |names|
  {
    exists word, n: nat ::
      && Word(defs, k, word) && names[k] == Called(prefix, word, n)
      && names[k] !in existing && names[k] !in names[..k]
      && forall m: nat :: m < n ==> Called(prefix, word, m) in existing || Called(prefix, word, m) in names[..k]
  }

  lemma NamelessIff(def: Definition)
    ensures Nameless(def) <==> Slug.Slugify(LabelOf(def)) == ""
  {
    assert Labelled(def, LabelOf(def)) && forall other :: Labelled(def, other) ==> other == LabelOf(def);
    Slug.SlugEmptyIff(LabelOf(def));
  }

  /** The first candidate that is neither taken nor an earlier name. */
  predicate FirstNew(base: string, taken: set<string>, names: seq<string>, n: nat) {
    && Candidate(base, n) !in taken && Candidate(base, n) !in names
    && forall m: nat :: m < n ==> Candidate(base, m) in taken || Candidate(base, m) in names
  }

  lemma FirstNewBehind(base: string, taken: set<string>, id: string, names: seq<string>, n: nat)
    requires FirstNew(base, taken + {id}, names, n)
    ensures FirstNew(base, taken, [id] + names, n)
  {
  }

  function NextNaming(def: Definition, s: Naming, id: string): Naming {
    Naming(s.taken + {id}, if Slug.Slugify(LabelOf(def)) == "" then s.unnamed + 1 else s.unnamed)
  }

  lemma NewNamesUnfold(prefix: string, defs: seq<Definition>, s: Naming) returns (id: string, n: nat)
    requires defs != []
    ensures NewNames(prefix, defs, s).0 == [id] + NewNames(prefix, defs[1..], NextNaming(defs[0], s, id)).0
    ensures id == Candidate(BaseOf(prefix, defs[0], s.unnamed), n)
    ensures FirstNew(BaseOf(prefix, defs[0], s.unnamed), s.taken, [], n)
  {
    var base := BaseOf(prefix, defs[0], s.unnamed);
    n := FreshFrom(base, s.taken, 0);
    id := FreshName(base, s.taken);
    assert FirstFree(base, s.taken, n);
  }

  lemma {:induction false} NewNamesCount(prefix: string, defs: seq<Definition>, s: Naming)
    ensures |NewNames(prefix, defs, s).0| == |defs|
    decreases |defs|
  {
    if defs != [] {
      var id, n := NewNamesUnfold(prefix, defs, s);
      NewNamesCount(prefix, defs[1..], NextNaming(defs[0], s, id));
    }
  }

  lemma NumberedBehind(defs: seq<Definition>, s: Naming, id: string, k: nat)
    requires 0 < k < |defs|
    ensures NextNaming(defs[0], s, id).unnamed + Numbered(defs[1..][..k - 1]) == s.unnamed + Numbered(defs[..k])
  {
    NamelessIff(defs[0]);
    assert defs[..k][1..] == defs[1..][..k - 1];
  }

  /** Name `k` is the first new candidate for its base. */
  predicate NameOk(base: string, taken: set<string>, names: seq<string>, k: nat, n: nat) {
    k < |names| && names[k] == Candidate(base, n) && FirstNew(base, taken, names[..k], n)
  }

  lemma NameBehind(base: string, taken: set<string>, id: string, names: seq<string>, k: nat, n: nat)
    requires NameOk(base, taken + {id}, names, k, n)
    ensures NameOk(base, taken, [id] + names, k + 1, n)
  {
    FirstNewBehind(base, taken, id, names[..k], n);
    assert ([id] + names)[..k + 1] == [id] + names[..k];
  }

  /** The name of check `k` in a list that begins with another one. */
  ghost predicate NameAt(prefix: string, defs: seq<Definition>, s: Naming, names: seq<string>, k: nat,
                         number: nat, base: string, n: nat)
  {
    && k < |defs| && number == s.unnamed + Numbered(defs[..k]) && base == BaseOf(prefix, defs[k], number)
    && NameOk(base, s.taken, names, k, n)
  }

  lemma NameAtBehind(prefix: string, defs: seq<Definition>, s: Naming, id: string, rest: seq<string>, k: nat,
                     number: nat, base: string, n: nat)
    requires 0 < k < |defs| && NameAt(prefix, defs[1..], NextNaming(defs[0], s, id), rest, k - 1, number, base, n)
    ensures NameAt(prefix, defs, s, [id] + rest, k, number, base, n)
  {
    NumberedBehind(defs, s, id, k);
    NameBehind(base, s.taken, id, rest, k - 1, n);
  }

  lemma {:induction false} NewNameAt(prefix: string, defs: seq<Definition>, s: Naming, k: nat)
    returns (number: nat, base: string, n: nat)
    requires k < |defs|
    ensures NameAt(prefix, defs, s, NewNames(prefix, defs, s).0, k, number, base, n)
    decreases k
  {
    var id;
    id, n := NewNamesUnfold(prefix, defs, s);
    if k > 0 {
      var next := NextNaming(defs[0], s, id);
      number, base, n := NewNameAt(prefix, defs[1..], next, k - 1);
      NameAtBehind(prefix, defs, s, id, NewNames(prefix, defs[1..], next).0, k, number, base, n);
    } else {
      number, base := s.unnamed, BaseOf(prefix, defs[0], s.unnamed);
      assert NewNames(prefix, defs, s).0[..0] == [] && defs[..0] == [];
    }
  }

  lemma CalledIsCandidate(prefix: string, word: string, n: nat)
    ensures Called(prefix, word, n) == Candidate(Prefixed(prefix, word), n)
  {
    var base := if prefix == "" then word else prefix + "-" + word;
    if n == 0 {
      assert base + "" == base;
    } else {
      assert base + ("-" + Decimal(n)) == base + "-" + Decimal(n);
    }
  }

  /** Every new name is the first one free: the slug of the check's label or, for a check
      without one, a running number, behind the prefix, with the smallest suffix that makes
      it new. */
  lemma NamesAreFirst(prefix: string, defs: seq<Definition>, existing: set<string>, k: nat)
    requires k < |defs|
    ensures var names := NewNames(prefix, defs, Naming(existing, 0)).0;
            |names| == |defs| && NamedFirst(prefix, defs, existing, names, k)
  {
    var number, base, n := NewNameAt(prefix, defs, Naming(existing, 0), k);
    NewNamesCount(prefix, defs, Naming(existing, 0));
    var word := WordOf(prefix, defs, k);
    FirstNewIsNamed(prefix, word, existing, NewNames(prefix, defs, Naming(existing, 0)).0[..k], n);
  }

  lemma WordOf(prefix: string, defs: seq<Definition>, k: nat) returns (word: string)
    requires k < |defs|
    ensures Word(defs, k, word) && BaseOf(prefix, defs[k], Numbered(defs[..k])) == Prefixed(prefix, word)
  {
    NamelessIff(defs[k]);
    var slug := Slug.Slugify(LabelOf(defs[k]));
    word := if slug == "" then "inline-" + Decimal(Numbered(defs[..k])) else slug;
    assert Labelled(defs[k], LabelOf(defs[k]));
  }

  lemma FirstNewIsNamed(prefix: string, word: string, existing: set<string>, names: seq<string>, n: nat)
    requires FirstNew(Prefixed(prefix, word), existing, names, n)
    ensures Called(prefix, word, n) == Candidate(Prefixed(prefix, word), n)
    ensures Called(prefix, word, n) !in existing && Called(prefix, word, n) !in names
    ensures forall m: nat :: m < n ==> Called(prefix, word, m) in existing || Called(prefix, word, m) in names
  {
    CalledIsCandidate(prefix, word, n);
    forall m: nat | m < n ensures Called(prefix, word, m) in existing || Called(prefix, word, m) in names {
      CalledIsCandidate(prefix, word, m);
    }
  }

  /** So is every id that extraction gives. */
  lemma MovedIdsAreFirst(doc: Doc, prefix: string, k: nat)
    requires Extract(doc, prefix).Ok?
    ensures var (defs, ids) := (InlineIn(Workflows(doc)), NamesOf(Extract(doc, prefix).value.1));
            |ids| == |defs| && (k < |defs| ==> NamedFirst(prefix, defs, Checks(doc).Keys, ids, k))
  {
    var defs := InlineIn(Workflows(doc));
    MovedIdsAreNewNames(doc, prefix);
    NewNamesCount(prefix, defs, Naming(ExistingIds(doc), 0));
    if k < |defs| {
      NamesAreFirst(prefix, defs, ExistingIds(doc), k);
    }
  }
}
