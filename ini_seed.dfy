/**
  The seeding step of the provider's Initialize: for every section of the
  registry's collection, add the section, then give every item of it that
  the store lacks its default value.  The "lacks" test looks the section and
  the item name up exactly as the registry spells them, while the store's
  keys are folded to lower case; the consequences are proved below.
 */
module IniSeed {
  import opened Text
  import opened IniData

  /**
    The registry's collection as seeding reads it: section as registered ->
    name as registered -> (the item's current name, its rendered default).
   */
  type Declared = map<string, map<string, (string, string)>>

  /** One action of the seeding loop. */
  datatype SeedStep = SectionStep(section: string) | ItemStep(section: string, name: string, value: string)

  /** The seeding loop over a sequence of steps: the new store, and whether an option was added. */
  function Seed(d: Data, steps: seq<SeedStep>): (r: (Data, bool))
    ensures KeysFolded(d) ==> KeysFolded(r.0)
    decreases |steps|
  {
    if steps == [] then (d, false)
    else
      match steps[0]
      case SectionStep(s) => Seed(AddSection(d, s).0, steps[1..])
      case ItemStep(s, n, v) =>
        if s in d && n in d[s] then Seed(d, steps[1..])
        else (Seed(AddOption(d, s, n, v).0, steps[1..]).0, true)
  }

  /** `ks` lists the set `keys`, each element once. */
  ghost predicate ListsOnce(ks: seq<string>, keys: set<string>) {
    && (forall i :: 0 <= i < |ks| ==> ks[i] in keys)
    && (forall i, j :: 0 <= i < j < |ks| ==> ks[i] != ks[j])
    && (forall k :: k in keys ==> exists i :: 0 <= i < |ks| && ks[i] == k)
  }

  /** The order a walk over the collection takes: each section once, and within it each item once. */
  ghost predicate IsSeedOrder(order: seq<(string, seq<string>)>, c: Declared) {
    && (forall i :: 0 <= i < |order| ==> order[i].0 in c && ListsOnce(order[i].1, c[order[i].0].Keys))
    && (forall i, j :: 0 <= i < j < |order| ==> order[i].0 != order[j].0)
    && (forall s :: s in c ==> exists i :: 0 <= i < |order| && order[i].0 == s)
  }

  /** `ks` lists the elements of `keys` that are `done`, each once. */
  ghost predicate KeysSoFar(ks: seq<string>, keys: set<string>, done: set<string>) {
    && (forall i :: 0 <= i < |ks| ==> ks[i] in done && ks[i] in keys)
    && (forall i, j :: 0 <= i < j < |ks| ==> ks[i] != ks[j])
    && (forall k :: k in done && k in keys ==> exists i :: 0 <= i < |ks| && ks[i] == k)
  }

  lemma KeysStep(ks: seq<string>, keys: set<string>, done: set<string>, k: string)
    requires KeysSoFar(ks, keys, done) && k in keys && k !in done
    ensures KeysSoFar(ks + [k], keys, done + {k})
  {
    var l := ks + [k];
    forall x | x in done + {k} && x in keys ensures exists i :: 0 <= i < |l| && l[i] == x {
      if x == k {
        assert l[|ks|] == x;
      } else {
        var i :| 0 <= i < |ks| && ks[i] == x;
        assert l[i] == x;
      }
    }
  }

  lemma KeysDone(ks: seq<string>, keys: set<string>)
    requires KeysSoFar(ks, keys, keys)
    ensures ListsOnce(ks, keys)
  {
  }

  /** The order of the sections of `c` that are `done`, each once with all its items. */
  ghost predicate OrderSoFar(order: seq<(string, seq<string>)>, c: Declared, done: set<string>) {
    && (forall i :: 0 <= i < |order| ==> order[i].0 in done && order[i].0 in c && ListsOnce(order[i].1, c[order[i].0].Keys))
    && (forall i, j :: 0 <= i < j < |order| ==> order[i].0 != order[j].0)
    && (forall s :: s in done && s in c ==> exists i :: 0 <= i < |order| && order[i].0 == s)
  }

  lemma OrderStep(order: seq<(string, seq<string>)>, c: Declared, done: set<string>, s: string, ks: seq<string>)
    requires OrderSoFar(order, c, done) && s in c && s !in done && ListsOnce(ks, c[s].Keys)
    ensures OrderSoFar(order + [(s, ks)], c, done + {s})
  {
    var l := order + [(s, ks)];
    forall t | t in done + {s} && t in c ensures exists i :: 0 <= i < |l| && l[i].0 == t {
      if t == s {
        assert l[|order|].0 == t;
      } else {
        var i :| 0 <= i < |order| && order[i].0 == t;
        assert l[i].0 == t;
      }
    }
  }

  lemma OrderDone(order: seq<(string, seq<string>)>, c: Declared)
    requires OrderSoFar(order, c, c.Keys)
    ensures IsSeedOrder(order, c)
  {
  }

  /** The item steps of one section, in the order `ks` takes. */
  function ItemSteps(s: string, ks: seq<string>, m: map<string, (string, string)>): (r: seq<SeedStep>)
    requires forall i :: 0 <= i < |ks| ==> ks[i] in m
    ensures |r| == |ks|
    ensures forall i :: 0 <= i < |ks| ==> r[i] == ItemStep(s, m[ks[i]].0, m[ks[i]].1)
  {
    if ks == [] then [] else [ItemStep(s, m[ks[0]].0, m[ks[0]].1)] + ItemSteps(s, ks[1..], m)
  }

  /** The steps of a walk in the given order: per section, the section, then its items. */
  function SeedSteps(order: seq<(string, seq<string>)>, c: Declared): seq<SeedStep>
    requires forall i :: 0 <= i < |order| ==> order[i].0 in c && forall k :: k in order[i].1 ==> k in c[order[i].0]
    decreases |order|
  {
    if order == [] then []
    else
      var s := order[0].0;
      [SectionStep(s)] + ItemSteps(s, order[0].1, c[s]) + SeedSteps(order[1..], c)
  }

  lemma {:induction false} SeedStepsSnoc(order: seq<(string, seq<string>)>, b: (string, seq<string>), c: Declared)
    requires forall i :: 0 <= i < |order| ==> order[i].0 in c && forall k :: k in order[i].1 ==> k in c[order[i].0]
    requires b.0 in c && forall k :: k in b.1 ==> k in c[b.0]
    ensures SeedSteps(order + [b], c) == SeedSteps(order, c) + ([SectionStep(b.0)] + ItemSteps(b.0, b.1, c[b.0]))
    decreases |order|
  {
    if order == [] {
      assert [b][1..] == [];
      assert [] + [b] == [b];
    } else {
      assert (order + [b])[0] == order[0];
      assert (order + [b])[1..] == order[1..] + [b];
      SeedStepsSnoc(order[1..], b, c);
    }
  }

  lemma ItemStepsSnoc(s: string, ks: seq<string>, k: string, m: map<string, (string, string)>)
    requires forall i :: 0 <= i < |ks| ==> ks[i] in m
    requires k in m
    ensures ItemSteps(s, ks + [k], m) == ItemSteps(s, ks, m) + [ItemStep(s, m[k].0, m[k].1)]
  {
    var l := ItemSteps(s, ks + [k], m);
    var r := ItemSteps(s, ks, m) + [ItemStep(s, m[k].0, m[k].1)];
    assert |l| == |r|;
    forall i | 0 <= i < |l| ensures l[i] == r[i] {
      assert (ks + [k])[i] == if i < |ks| then ks[i] else k;
    }
  }

  /** Seeding along `a + b` is seeding along `a`, then along `b`; an addition in either counts. */
  lemma {:induction false} SeedAppend(d: Data, a: seq<SeedStep>, b: seq<SeedStep>)
    ensures var ra := Seed(d, a); var rb := Seed(ra.0, b);
            Seed(d, a + b) == (rb.0, ra.1 || rb.1)
    decreases |a|
  {
    if a == [] {
      assert a + b == b;
    } else {
      assert (a + b)[0] == a[0];
      assert (a + b)[1..] == a[1..] + b;
      match a[0]
      case SectionStep(s) => SeedAppend(AddSection(d, s).0, a[1..], b);
      case ItemStep(s, n, v) =>
        if s in d && n in d[s] {
          SeedAppend(d, a[1..], b);
        } else {
          SeedAppend(AddOption(d, s, n, v).0, a[1..], b);
        }
    }
  }

  /** One more item at the end of a section's walk: it is added iff its exact spelling is missing. */
  lemma SeedItemStep(d0: Data, s: string, ks: seq<string>, k: string, m: map<string, (string, string)>, d: Data, added: bool)
    requires forall i :: 0 <= i < |ks| ==> ks[i] in m
    requires k in m
    requires (d, added) == Seed(d0, ItemSteps(s, ks, m))
    ensures var n := m[k].0; var v := m[k].1;
            Seed(d0, ItemSteps(s, ks + [k], m))
            == if s in d && n in d[s] then (d, added) else (AddOption(d, s, n, v).0, true)
  {
    var x := ItemStep(s, m[k].0, m[k].1);
    ItemStepsSnoc(s, ks, k, m);
    SeedAppend(d0, ItemSteps(s, ks, m), [x]);
    SeedOne(d, x);
  }

  /** One more section at the end of the walk: add the section, then seed its items. */
  lemma SeedSectionStep(d0: Data, order: seq<(string, seq<string>)>, c: Declared, s: string, ks: seq<string>,
                        d: Data, added: bool, d2: Data, more: bool)
    requires forall i :: 0 <= i < |order| ==> order[i].0 in c && forall k :: k in order[i].1 ==> k in c[order[i].0]
    requires s in c && forall k :: k in ks ==> k in c[s]
    requires (d, added) == Seed(d0, SeedSteps(order, c))
    requires (d2, more) == Seed(AddSection(d, s).0, ItemSteps(s, ks, c[s]))
    ensures Seed(d0, SeedSteps(order + [(s, ks)], c)) == (d2, added || more)
  {
    var items := ItemSteps(s, ks, c[s]);
    SeedStepsSnoc(order, (s, ks), c);
    SeedAppend(d0, SeedSteps(order, c), [SectionStep(s)] + items);
    SeedAppend(d, [SectionStep(s)], items);
    SeedOne(d, SectionStep(s));
  }

  /** The state of the seeding walk: `order` covers the sections `done`, and the store is the seed along it. */
  ghost predicate SeedSoFar(d0: Data, order: seq<(string, seq<string>)>, c: Declared, done: set<string>, d: Data, added: bool) {
    OrderSoFar(order, c, done) && (d, added) == Seed(d0, SeedSteps(order, c))
  }

  lemma SeedSoFarStep(d0: Data, order: seq<(string, seq<string>)>, c: Declared, done: set<string>, s: string, ks: seq<string>,
                      d: Data, added: bool, d2: Data, more: bool)
    requires SeedSoFar(d0, order, c, done, d, added)
    requires s in c && s !in done && ListsOnce(ks, c[s].Keys)
    requires (d2, more) == Seed(AddSection(d, s).0, ItemSteps(s, ks, c[s]))
    ensures SeedSoFar(d0, order + [(s, ks)], c, done + {s}, d2, added || more)
  {
    OrderStep(order, c, done, s, ks);
    SeedSectionStep(d0, order, c, s, ks, d, added, d2, more);
  }

  lemma SeedSoFarDone(d0: Data, order: seq<(string, seq<string>)>, c: Declared, d: Data, added: bool)
    requires SeedSoFar(d0, order, c, c.Keys, d, added)
    ensures IsSeedOrder(order, c) && (d, added) == Seed(d0, SeedSteps(order, c))
  {
    OrderDone(order, c);
  }

  /** One step of seeding. */
  lemma SeedOne(d: Data, x: SeedStep)
    ensures x.SectionStep? ==> Seed(d, [x]) == (AddSection(d, x.section).0, false)
    ensures x.ItemStep? ==>
              Seed(d, [x]) == if x.section in d && x.name in d[x.section] then (d, false)
                              else (AddOption(d, x.section, x.name, x.value).0, true)
  {
    assert [x][1..] == [];
  }

  /** The steps of a walk: the section's step, its items' steps, then the rest of the walk's. */
  lemma SeedStepsParts(order: seq<(string, seq<string>)>, c: Declared)
    requires order != []
    requires forall i :: 0 <= i < |order| ==> order[i].0 in c && forall k :: k in order[i].1 ==> k in c[order[i].0]
    ensures var s := order[0].0; var head := [SectionStep(s)] + ItemSteps(s, order[0].1, c[s]);
            && SeedSteps(order, c) == head + SeedSteps(order[1..], c)
            && forall i :: 0 <= i < |order| - 1 ==> order[1..][i] == order[i + 1]
  {
  }

  /** Every step of a walk names a section of the collection. */
  lemma {:induction false} SeedStepsSections(order: seq<(string, seq<string>)>, c: Declared)
    requires forall i :: 0 <= i < |order| ==> order[i].0 in c && forall k :: k in order[i].1 ==> k in c[order[i].0]
    ensures var steps := SeedSteps(order, c); forall i :: 0 <= i < |steps| ==> steps[i].section in c
    decreases |order|
  {
    if order != [] {
      var s := order[0].0;
      SeedStepsParts(order, c);
      SeedStepsSections(order[1..], c);
      var head := [SectionStep(s)] + ItemSteps(s, order[0].1, c[s]);
      var tail := SeedSteps(order[1..], c);
      var steps := SeedSteps(order, c);
      forall i | 0 <= i < |steps| ensures steps[i].section in c {
        if i < |head| {
          assert steps[i] == head[i];
        } else {
          assert steps[i] == tail[i - |head|];
        }
      }
    }
  }

  /** Every section of a walk has its step. */
  lemma {:induction false} SeedStepsHaveSections(order: seq<(string, seq<string>)>, c: Declared)
    requires forall i :: 0 <= i < |order| ==> order[i].0 in c && forall k :: k in order[i].1 ==> k in c[order[i].0]
    ensures forall i :: 0 <= i < |order| ==> SectionStep(order[i].0) in SeedSteps(order, c)
    decreases |order|
  {
    if order != [] {
      var rest := order[1..];
      SeedStepsParts(order, c);
      SeedStepsHaveSections(rest, c);
      var steps := SeedSteps(order, c);
      forall i | 0 <= i < |order| ensures SectionStep(order[i].0) in steps {
        if i == 0 {
          assert steps[0] == SectionStep(order[0].0);
        } else {
          assert rest[i - 1] == order[i];
          assert SectionStep(rest[i - 1].0) in SeedSteps(rest, c);
        }
      }
    }
  }

  /** Every item of a walk has its step, with the collection's name and default. */
  lemma {:induction false} SeedStepsHaveItems(order: seq<(string, seq<string>)>, c: Declared)
    requires forall i :: 0 <= i < |order| ==> order[i].0 in c && forall k :: k in order[i].1 ==> k in c[order[i].0]
    ensures forall i, k :: 0 <= i < |order| && k in order[i].1 ==>
              ItemStep(order[i].0, c[order[i].0][k].0, c[order[i].0][k].1) in SeedSteps(order, c)
    decreases |order|
  {
    if order != [] {
      var s := order[0].0;
      var rest := order[1..];
      SeedStepsParts(order, c);
      SeedStepsHaveItems(rest, c);
      var head := [SectionStep(s)] + ItemSteps(s, order[0].1, c[s]);
      var steps := SeedSteps(order, c);
      forall i, k | 0 <= i < |order| && k in order[i].1
        ensures ItemStep(order[i].0, c[order[i].0][k].0, c[order[i].0][k].1) in steps
      {
        if i == 0 {
          var j :| 0 <= j < |order[0].1| && order[0].1[j] == k;
          assert head[j + 1] == ItemStep(s, c[s][k].0, c[s][k].1);
          assert steps[j + 1] == head[j + 1];
        } else {
          assert rest[i - 1] == order[i];
          assert ItemStep(rest[i - 1].0, c[rest[i - 1].0][k].0, c[rest[i - 1].0][k].1) in SeedSteps(rest, c);
        }
      }
    }
  }

  /** Every step of a walk comes from the collection, and every section and item of it has its step. */
  lemma SeedStepsOf(order: seq<(string, seq<string>)>, c: Declared)
    requires forall i :: 0 <= i < |order| ==> order[i].0 in c && forall k :: k in order[i].1 ==> k in c[order[i].0]
    ensures var steps := SeedSteps(order, c);
            && (forall i :: 0 <= i < |steps| ==> steps[i].section in c)
            && (forall i :: 0 <= i < |order| ==> SectionStep(order[i].0) in steps)
            && (forall i, k :: 0 <= i < |order| && k in order[i].1 ==>
                  ItemStep(order[i].0, c[order[i].0][k].0, c[order[i].0][k].1) in steps)
  {
    SeedStepsSections(order, c);
    SeedStepsHaveSections(order, c);
    SeedStepsHaveItems(order, c);
  }

  // ---------------------------------------------------------------------
  // Seeding only adds

  /** Seeding removes no section and no option. */
  lemma {:induction false} SeedGrows(d: Data, steps: seq<SeedStep>)
    ensures var r := Seed(d, steps).0;
            forall s :: s in d ==> s in r && d[s].Keys <= r[s].Keys
    decreases |steps|
  {
    if steps != [] {
      match steps[0]
      case SectionStep(s) => SeedGrows(AddSection(d, s).0, steps[1..]);
      case ItemStep(s, n, v) =>
        if !(s in d && n in d[s]) {
          SeedGrows(AddOption(d, s, n, v).0, steps[1..]);
        } else {
          SeedGrows(d, steps[1..]);
        }
    }
  }

  /**
    After seeding a store with folded keys, every section of a step and every
    item of a step is present under its folded names.
   */
  lemma {:induction false} SeedCovers(d: Data, steps: seq<SeedStep>)
    requires KeysFolded(d)
    ensures var r := Seed(d, steps).0;
            forall i :: 0 <= i < |steps| ==>
              && ToLower(steps[i].section) in r
              && (steps[i].ItemStep? ==> ToLower(steps[i].name) in r[ToLower(steps[i].section)])
    decreases |steps|
  {
    if steps != [] {
      var rest := steps[1..];
      var d' := match steps[0]
        case SectionStep(s) => AddSection(d, s).0
        case ItemStep(s, n, v) => if s in d && n in d[s] then d else AddOption(d, s, n, v).0;
      assert Seed(d, steps).0 == Seed(d', rest).0;
      SeedCovers(d', rest);
      SeedGrows(d', rest);
      var s := steps[0].section;
      if steps[0].ItemStep? && s in d && steps[0].name in d[s] {
        ToLowerFixedIff(s);
        ToLowerFixedIff(steps[0].name);
      }
      assert ToLower(s) in d';
      assert steps[0].ItemStep? ==> ToLower(steps[0].name) in d'[ToLower(s)];
      forall i | 0 < i < |steps| ensures
        && ToLower(steps[i].section) in Seed(d, steps).0
        && (steps[i].ItemStep? ==> ToLower(steps[i].name) in Seed(d, steps).0[ToLower(steps[i].section)])
      {
        assert steps[i] == rest[i - 1];
      }
    }
  }

  /** A given step of a seeding of a folded store leaves its names present, folded. */
  lemma CoveredStep(d: Data, steps: seq<SeedStep>, x: SeedStep)
    requires KeysFolded(d) && x in steps
    ensures var r := Seed(d, steps).0;
            ToLower(x.section) in r && (x.ItemStep? ==> ToLower(x.name) in r[ToLower(x.section)])
  {
    var j :| 0 <= j < |steps| && steps[j] == x;
    SeedCovers(d, steps);
  }

  /**
    Initialize's promise: after seeding in any order, every registered section
    and every registered item has an entry under its folded names.
   */
  lemma DeclaredSeeded(d: Data, order: seq<(string, seq<string>)>, c: Declared)
    requires KeysFolded(d) && IsSeedOrder(order, c)
    ensures var r := Seed(d, SeedSteps(order, c)).0;
            forall s :: s in c ==> ToLower(s) in r && forall k :: k in c[s] ==> ToLower(c[s][k].0) in r[ToLower(s)]
  {
    var steps := SeedSteps(order, c);
    SeedStepsHaveSections(order, c);
    SeedStepsHaveItems(order, c);
    forall s | s in c
      ensures var r := Seed(d, steps).0;
              ToLower(s) in r && forall k :: k in c[s] ==> ToLower(c[s][k].0) in r[ToLower(s)]
    {
      var i :| 0 <= i < |order| && order[i].0 == s;
      SectionSeeded(d, order, c, i);
    }
  }

  /** The section at position `i` of the walk, and each of its items, are present after seeding. */
  lemma SectionSeeded(d: Data, order: seq<(string, seq<string>)>, c: Declared, i: int)
    requires KeysFolded(d) && IsSeedOrder(order, c) && 0 <= i < |order|
    requires forall i :: 0 <= i < |order| ==> SectionStep(order[i].0) in SeedSteps(order, c)
    requires forall i, k :: 0 <= i < |order| && k in order[i].1 ==>
               ItemStep(order[i].0, c[order[i].0][k].0, c[order[i].0][k].1) in SeedSteps(order, c)
    ensures var s := order[i].0; var r := Seed(d, SeedSteps(order, c)).0;
            ToLower(s) in r && forall k :: k in c[s] ==> ToLower(c[s][k].0) in r[ToLower(s)]
  {
    var s := order[i].0;
    var steps := SeedSteps(order, c);
    var r := Seed(d, steps).0;
    CoveredStep(d, steps, SectionStep(s));
    forall k | k in c[s] ensures ToLower(c[s][k].0) in r[ToLower(s)] {
      assert k in order[i].1;
      CoveredStep(d, steps, ItemStep(s, c[s][k].0, c[s][k].1));
    }
  }

  // ---------------------------------------------------------------------
  // What seeding keeps

  /** No step other than one with exactly these names folds onto section `s`, option `o`. */
  ghost predicate OnlyExactSpelling(steps: seq<SeedStep>, s: string, o: string) {
    forall i :: 0 <= i < |steps| && steps[i].ItemStep? && ToLower(steps[i].section) == s && ToLower(steps[i].name) == o ==>
      steps[i].section == s && steps[i].name == o
  }

  /**
    An entry present under the exact spelling the registry uses keeps its
    value, provided no differently spelled item folds onto it.
   */
  lemma {:induction false} SeedKeepsExact(d: Data, steps: seq<SeedStep>, s: string, o: string)
    requires s in d && o in d[s] && OnlyExactSpelling(steps, s, o)
    ensures var r := Seed(d, steps).0;
            s in r && o in r[s] && r[s][o] == d[s][o]
    decreases |steps|
  {
    if steps != [] {
      var rest := steps[1..];
      assert OnlyExactSpelling(rest, s, o) by {
        forall i | 0 <= i < |rest| ensures rest[i] == steps[i + 1] { }
      }
      match steps[0]
      case SectionStep(t) => SeedKeepsExact(AddSection(d, t).0, rest, s, o);
      case ItemStep(t, n, v) =>
        if t in d && n in d[t] {
          SeedKeepsExact(d, rest, s, o);
        } else {
          assert ToLower(t) != s || ToLower(n) != o;
          SeedKeepsExact(AddOption(d, t, n, v).0, rest, s, o);
        }
    }
  }

  /** With registry names all in lower case, every value already in the store survives seeding. */
  lemma SeedKeepsFileValues(d: Data, steps: seq<SeedStep>)
    requires forall i :: 0 <= i < |steps| ==> IsLowerCase(steps[i].section) && (steps[i].ItemStep? ==> IsLowerCase(steps[i].name))
    ensures var r := Seed(d, steps).0;
            forall s, o :: s in d && o in d[s] ==> s in r && o in r[s] && r[s][o] == d[s][o]
  {
    forall s, o | s in d && o in d[s] ensures s in Seed(d, steps).0 && o in Seed(d, steps).0[s] && Seed(d, steps).0[s][o] == d[s][o] {
      forall i | 0 <= i < |steps| && steps[i].ItemStep? && ToLower(steps[i].section) == s && ToLower(steps[i].name) == o
        ensures steps[i].section == s && steps[i].name == o
      {
        ToLowerFixedIff(steps[i].section);
        ToLowerFixedIff(steps[i].name);
      }
      SeedKeepsExact(d, steps, s, o);
    }
  }

  /**
    A section registered with capitals is never found by the exact lookup,
    so its item is seeded again and overwrites the value that the file gave
    the folded names.
   */
  lemma MixedCaseSectionClobbers(d: Data, s: string, o: string, v: string)
    requires KeysFolded(d) && !IsLowerCase(s) && IsLowerCase(o)
    requires ToLower(s) in d && o in d[ToLower(s)]
    ensures Seed(d, [SectionStep(s), ItemStep(s, o, v)]) == (d[ToLower(s) := d[ToLower(s)][o := v]], true)
  {
    var steps := [SectionStep(s), ItemStep(s, o, v)];
    var item := [ItemStep(s, o, v)];
    assert AddSection(d, s).0 == d;
    assert steps[1..] == item;
    assert Seed(d, steps) == Seed(d, item);
    ToLowerFixedIff(s);
    assert s !in d;
    assert item[1..] == [];
    var d' := AddOption(d, s, o, v).0;
    assert Seed(d, item) == (Seed(d', []).0, true);
    ToLowerFixedIff(o);
    assert d' == d[ToLower(s) := d[ToLower(s)][o := v]];
  }

  // ---------------------------------------------------------------------
  // When seeding adds something

  /** `d` holds what `d0` held and nothing more, apart from new empty sections. */
  ghost predicate SameOptions(d0: Data, d: Data) {
    && (forall s :: s in d0 ==> s in d && d[s] == d0[s])
    && (forall s :: s in d && s !in d0 ==> d[s] == map[])
  }

  /** Some item step finds nothing under its exact spelling in `d0`. */
  ghost predicate SomeMissing(d0: Data, steps: seq<SeedStep>) {
    exists i :: 0 <= i < |steps| && steps[i].ItemStep? && !(steps[i].section in d0 && steps[i].name in d0[steps[i].section])
  }

  lemma SomeMissingCons(d0: Data, steps: seq<SeedStep>)
    requires steps != []
    ensures SomeMissing(d0, steps) <==>
              || (steps[0].ItemStep? && !(steps[0].section in d0 && steps[0].name in d0[steps[0].section]))
              || SomeMissing(d0, steps[1..])
  {
    var rest := steps[1..];
    if SomeMissing(d0, steps) {
      var i :| 0 <= i < |steps| && steps[i].ItemStep? && !(steps[i].section in d0 && steps[i].name in d0[steps[i].section]);
      if i > 0 {
        assert rest[i - 1] == steps[i];
      }
    }
    if SomeMissing(d0, rest) {
      var i :| 0 <= i < |rest| && rest[i].ItemStep? && !(rest[i].section in d0 && rest[i].name in d0[rest[i].section]);
      assert steps[i + 1] == rest[i];
    }
  }

  lemma {:induction false} SeedAddedFrom(d0: Data, d: Data, steps: seq<SeedStep>)
    requires SameOptions(d0, d)
    ensures Seed(d, steps).1 <==> SomeMissing(d0, steps)
    ensures !Seed(d, steps).1 ==> SameOptions(d0, Seed(d, steps).0)
    decreases |steps|
  {
    if steps != [] {
      var rest := steps[1..];
      SomeMissingCons(d0, steps);
      match steps[0]
      case SectionStep(t) =>
        SeedAddedFrom(d0, AddSection(d, t).0, rest);
      case ItemStep(t, n, v) =>
        if t in d && n in d[t] {
          SeedAddedFrom(d0, d, rest);
        }
    }
  }

  /**
    Seeding adds an option exactly when some item is missing under its exact
    spelling, and when it adds none the store gains at most empty sections.
   */
  lemma SeedAddedIff(d: Data, steps: seq<SeedStep>)
    ensures Seed(d, steps).1 <==> SomeMissing(d, steps)
    ensures !Seed(d, steps).1 ==> SameOptions(d, Seed(d, steps).0)
  {
    SeedAddedFrom(d, d, steps);
  }

  /** The folded sections the steps name. */
  function StepSections(steps: seq<SeedStep>): set<string>
    decreases |steps|
  {
    if steps == [] then {} else {ToLower(steps[0].section)} + StepSections(steps[1..])
  }

  /** The sections seeding a folded store leaves: the old ones and the folded section of every step. */
  lemma {:induction false} SeedKeys(d: Data, steps: seq<SeedStep>)
    requires KeysFolded(d)
    ensures Seed(d, steps).0.Keys == d.Keys + StepSections(steps)
    decreases |steps|
  {
    if steps != [] {
      var rest := steps[1..];
      var x := ToLower(steps[0].section);
      assert StepSections(steps) == {x} + StepSections(rest);
      match steps[0]
      case SectionStep(t) =>
        SeedKeys(AddSection(d, t).0, rest);
        UnionAssoc(d.Keys, {x}, StepSections(rest));
      case ItemStep(t, n, v) =>
        if t in d && n in d[t] {
          ToLowerFixedIff(t);
          SeedKeys(d, rest);
          UnionAbsorb(d.Keys, x, StepSections(rest));
        } else {
          SeedKeys(AddOption(d, t, n, v).0, rest);
          UnionAssoc(d.Keys, {x}, StepSections(rest));
        }
    }
  }

  lemma UnionAssoc(a: set<string>, b: set<string>, c: set<string>)
    ensures a + b + c == a + (b + c)
  {
  }

  lemma UnionAbsorb(a: set<string>, x: string, b: set<string>)
    requires x in a
    ensures a + ({x} + b) == a + b
  {
  }

  lemma SameOptionsSameKeys(d0: Data, d: Data)
    requires SameOptions(d0, d) && d.Keys == d0.Keys
    ensures d == d0
  {
  }

  /**
    With lower-case registry names, a second seeding of the seeded store
    changes nothing and adds nothing, so Initialize does not write again.
   */
  lemma SeedTwice(d: Data, steps: seq<SeedStep>)
    requires KeysFolded(d)
    requires forall i :: 0 <= i < |steps| ==> IsLowerCase(steps[i].section) && (steps[i].ItemStep? ==> IsLowerCase(steps[i].name))
    ensures var r := Seed(d, steps).0;
            Seed(r, steps) == (r, false)
  {
    var r := Seed(d, steps).0;
    SeedCovers(d, steps);
    forall i | 0 <= i < |steps| && steps[i].ItemStep? ensures steps[i].section in r && steps[i].name in r[steps[i].section] {
      ToLowerFixedIff(steps[i].section);
      ToLowerFixedIff(steps[i].name);
    }
    assert !SomeMissing(r, steps);
    SeedAddedIff(r, steps);
    SeedKeys(d, steps);
    SeedKeys(r, steps);
    SameOptionsSameKeys(r, Seed(r, steps).0);
  }
}
