/** Grouping of the parsed include/exclude targeting fields by category, the
    per-category columns written into an ad's row, and the use and count
    indicators derived from those columns (create_DE_data.py).

    A field holds, once parsed, a list of dicts or a single dict; each dict
    maps a targeting value (an interest, a behaviour, ...) to its category.
    A dict is kept as its entries in insertion order. */
module TargetingCriteria {
  import opened Wrappers
  import opened Text

  /** One `value: category` entry of a parsed targeting dict. */
  datatype Entry = Entry(value: string, category: string)

  type Group = seq<Entry>

  /** What evaluating an include/exclude field gives: a list of dicts, a
      single dict, or `None`. */
  datatype Parsed = ListOf(groups: seq<Group>) | DictOf(group: Group) | NoneValue

  /** Python truthiness of a parsed field: a non-empty list or dict. */
  predicate Truthy(p: Parsed)
  {
    match p
    case ListOf(gs) => |gs| > 0
    case DictOf(g) => |g| > 0
    case NoneValue => false
  }

  datatype CriteriaError =
    | StringIndicesMustBeIntegers  // a dict iterated as if it were a list of dicts
    | NotIterable                  // `None` iterated as a dict

  // ---------------------------------------------------------------------------
  // Category -> set of values (get_unique_categories_include / _exclude)

  type Categories = map<string, set<string>>

  /** `unique_categories[category].add(value)` on a `defaultdict(set)`. */
  function AddEntry(acc: Categories, e: Entry): Categories
  {
    acc[e.category := (if e.category in acc then acc[e.category] else {}) + {e.value}]
  }

  /** The inner loop: every entry of one dict, in order. */
  function AddGroup(acc: Categories, g: Group): Categories
  {
    if g == [] then acc else AddEntry(AddGroup(acc, g[..|g| - 1]), g[|g| - 1])
  }

  /** The middle loop: every dict of a list, in order. */
  function AddGroups(acc: Categories, gs: seq<Group>): Categories
  {
    if gs == [] then acc else AddGroup(AddGroups(acc, gs[..|gs| - 1]), gs[|gs| - 1])
  }

  /** One field in `get_unique_categories_include`: a falsy field is
      skipped; a list adds all its dicts; a non-empty single dict is iterated
      as a list, so its first non-empty key is indexed by a character and
      the call fails (a key "" has no characters and passes unnoticed). */
  function IncludeStep(acc: Categories, p: Parsed): Result<Categories, CriteriaError>
  {
    if !Truthy(p) then Success(acc)
    else match p
      case ListOf(gs) => Success(AddGroups(acc, gs))
      case DictOf(g) =>
        if exists k | 0 <= k < |g| :: g[k].value != "" then Failure(StringIndicesMustBeIntegers)
        else Success(acc)
      case NoneValue => Success(acc)
  }

  /** One field in `get_unique_categories_exclude`: a single dict counts as
      a list holding that dict. */
  function ExcludeStep(acc: Categories, p: Parsed): Categories
  {
    if !Truthy(p) then acc
    else match p
      case ListOf(gs) => AddGroups(acc, gs)
      case DictOf(g) => AddGroup(acc, g)
      case NoneValue => acc
  }

  /** `get_unique_categories_include` over the distinct parsed fields, in
      order, stopping at the first failure. */
  function CollectInclude(fields: seq<Parsed>): Result<Categories, CriteriaError>
  {
    if fields == [] then Success(map[])
    else
      match CollectInclude(fields[..|fields| - 1])
      case Failure(e) => Failure(e)
      case Success(acc) => IncludeStep(acc, fields[|fields| - 1])
  }

  /** `get_unique_categories_exclude` over the distinct parsed fields. */
  function CollectExclude(fields: seq<Parsed>): Categories
  {
    if fields == [] then map[] else ExcludeStep(CollectExclude(fields[..|fields| - 1]), fields[|fields| - 1])
  }

  method UniqueCategoriesInclude(fields: seq<Parsed>) returns (r: Result<Categories, CriteriaError>)
    ensures r == CollectInclude(fields)
  {
    var acc: Categories := map[];
    for i := 0 to |fields|
      invariant CollectInclude(fields[..i]) == Success(acc)
    {
      assert fields[..i + 1][..i] == fields[..i];
      var vals := fields[i];
      if !Truthy(vals) {
        continue;
      }
      match vals
      case ListOf(gs) =>
        acc := AddGroupsLoop(acc, gs);
      case DictOf(g) =>
        var k := 0;
        while k < |g|
          invariant 0 <= k <= |g|
          invariant forall j | 0 <= j < k :: g[j].value == ""
        {
          if g[k].value != "" {
            IncludeFailureStays(fields, i + 1);
            return Failure(StringIndicesMustBeIntegers);
          }
          k := k + 1;
        }
      case NoneValue =>
    }
    assert fields[..|fields|] == fields;
    return Success(acc);
  }

  /** Once a field fails, the later ones are never read. */
  lemma {:induction false} IncludeFailureStays(fields: seq<Parsed>, n: nat)
    requires n <= |fields| && CollectInclude(fields[..n]).Failure?
    ensures CollectInclude(fields) == CollectInclude(fields[..n])
    decreases |fields| - n
  {
    if n < |fields| {
      assert fields[..n + 1][..n] == fields[..n];
      IncludeFailureStays(fields, n + 1);
    } else {
      assert fields[..n] == fields;
    }
  }

  method UniqueCategoriesExclude(fields: seq<Parsed>) returns (acc: Categories)
    ensures acc == CollectExclude(fields)
  {
    acc := map[];
    for i := 0 to |fields|
      invariant acc == CollectExclude(fields[..i])
    {
      assert fields[..i + 1][..i] == fields[..i];
      var vals := fields[i];
      if !Truthy(vals) {
        continue;
      }
      match vals
      case ListOf(gs) =>
        acc := AddGroupsLoop(acc, gs);
      case DictOf(g) =>
        acc := AddGroupLoop(acc, g);
      case NoneValue =>
    }
    assert fields[..|fields|] == fields;
  }

  /** The loops over the dicts of a list and over the entries of each. */
  method AddGroupsLoop(acc0: Categories, gs: seq<Group>) returns (acc: Categories)
    ensures acc == AddGroups(acc0, gs)
  {
    acc := acc0;
    for j := 0 to |gs|
      invariant acc == AddGroups(acc0, gs[..j])
    {
      assert gs[..j + 1][..j] == gs[..j];
      acc := AddGroupLoop(acc, gs[j]);
    }
    assert gs[..|gs|] == gs;
  }

  method AddGroupLoop(acc0: Categories, g: Group) returns (acc: Categories)
    ensures acc == AddGroup(acc0, g)
  {
    acc := acc0;
    for k := 0 to |g|
      invariant acc == AddGroup(acc0, g[..k])
    {
      assert g[..k + 1][..k] == g[..k];
      var key := g[k].category;
      var values := if key in acc then acc[key] else {};
      acc := acc[key := values + {g[k].value}];
    }
    assert g[..|g|] == g;
  }

  // ---------------------------------------------------------------------------
  // What the category sets hold

  /** `value` is recorded under `category`. */
  predicate Has(acc: Categories, value: string, category: string)
  {
    category in acc && value in acc[category]
  }

  /** Keys are created only by `.add`, so no set is empty. */
  predicate NoEmptySet(acc: Categories)
  {
    forall c | c in acc :: acc[c] != {}
  }

  /** The entry occurs in one of the dicts. */
  predicate InGroups(gs: seq<Group>, e: Entry)
  {
    exists j | 0 <= j < |gs| :: e in gs[j]
  }

  /** The dicts a field contributes to the exclude sets. */
  function GroupsOf(p: Parsed): seq<Group>
  {
    match p
    case ListOf(gs) => gs
    case DictOf(g) => [g]
    case NoneValue => []
  }

  /** The entry occurs in some field: for the include sets only lists are
      read, for the exclude sets single dicts too. */
  predicate Mentioned(fields: seq<Parsed>, e: Entry, readDicts: bool)
  {
    exists i | 0 <= i < |fields| ::
      InGroups(if readDicts || fields[i].ListOf? then GroupsOf(fields[i]) else [], e)
  }

  lemma {:induction false} AddGroupHas(acc: Categories, g: Group)
    requires NoEmptySet(acc)
    ensures NoEmptySet(AddGroup(acc, g))
    ensures forall v, c :: Has(AddGroup(acc, g), v, c) <==> Has(acc, v, c) || Entry(v, c) in g
  {
    if g != [] {
      var init := g[..|g| - 1];
      AddGroupHas(acc, init);
      assert g == init + [g[|g| - 1]];
    }
  }

  lemma {:induction false} AddGroupsHas(acc: Categories, gs: seq<Group>)
    requires NoEmptySet(acc)
    ensures NoEmptySet(AddGroups(acc, gs))
    ensures forall v, c :: Has(AddGroups(acc, gs), v, c) <==> Has(acc, v, c) || InGroups(gs, Entry(v, c))
  {
    if gs != [] {
      var init := gs[..|gs| - 1];
      var last := gs[|gs| - 1];
      AddGroupsHas(acc, init);
      AddGroupHas(AddGroups(acc, init), last);
      forall v, c
        ensures InGroups(gs, Entry(v, c)) <==> InGroups(init, Entry(v, c)) || Entry(v, c) in last
      {
        if InGroups(gs, Entry(v, c)) {
          var j :| 0 <= j < |gs| && Entry(v, c) in gs[j];
          if j < |init| {
            assert Entry(v, c) in init[j];
          }
        }
        if InGroups(init, Entry(v, c)) {
          var j :| 0 <= j < |init| && Entry(v, c) in init[j];
          assert gs[j] == init[j];
        }
      }
    }
  }

  /** Membership in the exclude sets: a value is recorded under a category
      exactly when some field pairs them, and no recorded set is empty. */
  lemma {:induction false} CollectExcludeHas(fields: seq<Parsed>)
    ensures NoEmptySet(CollectExclude(fields))
    ensures forall v, c :: Has(CollectExclude(fields), v, c) <==> Mentioned(fields, Entry(v, c), true)
  {
    if fields != [] {
      var init := fields[..|fields| - 1];
      var last := fields[|fields| - 1];
      CollectExcludeHas(init);
      var acc := CollectExclude(init);
      match last {
        case ListOf(gs) => AddGroupsHas(acc, gs);
        case DictOf(g) => AddGroupHas(acc, g);
        case NoneValue =>
      }
      forall v, c
        ensures Mentioned(fields, Entry(v, c), true) <==>
                  Mentioned(init, Entry(v, c), true) || InGroups(GroupsOf(last), Entry(v, c))
      {
        MentionedSplit(fields, Entry(v, c), true);
      }
      if last.DictOf? {
        forall v, c
          ensures InGroups([last.group], Entry(v, c)) <==> Entry(v, c) in last.group
        {
          if Entry(v, c) in last.group {
            assert [last.group][0] == last.group;
          }
        }
      }
      if !Truthy(last) {
        forall v, c
          ensures !InGroups(GroupsOf(last), Entry(v, c))
        {
          if last.DictOf? {
            assert last.group == [];
            assert GroupsOf(last) == [[]];
          }
        }
      }
    }
  }

  /** `Mentioned` over a list, split at its last field. */
  lemma MentionedSplit(fields: seq<Parsed>, e: Entry, readDicts: bool)
    requires fields != []
    ensures var last := fields[|fields| - 1];
            Mentioned(fields, e, readDicts) <==>
              Mentioned(fields[..|fields| - 1], e, readDicts)
              || InGroups(if readDicts || last.ListOf? then GroupsOf(last) else [], e)
  {
    var init := fields[..|fields| - 1];
    if Mentioned(fields, e, readDicts) {
      var i :| 0 <= i < |fields| &&
               InGroups(if readDicts || fields[i].ListOf? then GroupsOf(fields[i]) else [], e);
      if i < |init| {
        assert init[i] == fields[i];
      }
    }
    if Mentioned(init, e, readDicts) {
      var i :| 0 <= i < |init| &&
               InGroups(if readDicts || init[i].ListOf? then GroupsOf(init[i]) else [], e);
      assert fields[i] == init[i];
    }
  }

  /** A dict that `get_unique_categories_include` cannot read: one of its
      keys is not empty. */
  predicate UnreadableDict(p: Parsed)
  {
    p.DictOf? && exists k | 0 <= k < |p.group| :: p.group[k].value != ""
  }

  /** The include sets fail exactly when some field is a single dict with a
      non-empty key; otherwise a value is recorded under a category exactly
      when some list field pairs them, and no recorded set is empty. */
  lemma {:induction false} CollectIncludeHas(fields: seq<Parsed>)
    ensures CollectInclude(fields).Failure? <==> exists i | 0 <= i < |fields| :: UnreadableDict(fields[i])
    ensures CollectInclude(fields).Failure? ==> CollectInclude(fields).error == StringIndicesMustBeIntegers
    ensures CollectInclude(fields).Success? ==>
              && NoEmptySet(CollectInclude(fields).value)
              && forall v, c :: Has(CollectInclude(fields).value, v, c) <==> Mentioned(fields, Entry(v, c), false)
  {
    if fields != [] {
      var init := fields[..|fields| - 1];
      var last := fields[|fields| - 1];
      CollectIncludeHas(init);
      assert forall i | 0 <= i < |init| :: init[i] == fields[i];
      if CollectInclude(init).Failure? {
        assert UnreadableDict(fields[|fields| - 1]) ==> true;
      } else {
        var acc := CollectInclude(init).value;
        if last.ListOf? {
          AddGroupsHas(acc, last.groups);
        }
        forall v, c
          ensures Mentioned(fields, Entry(v, c), false) <==>
                    Mentioned(init, Entry(v, c), false)
                    || InGroups(if last.ListOf? then GroupsOf(last) else [], Entry(v, c))
        {
          MentionedSplit(fields, Entry(v, c), false);
        }
      }
    }
  }

  /** Two results with the same recorded pairs and no empty set are equal. */
  lemma SamePairsSameCategories(r1: Categories, r2: Categories)
    requires NoEmptySet(r1) && NoEmptySet(r2)
    requires forall v, c :: Has(r1, v, c) <==> Has(r2, v, c)
    ensures r1 == r2
  {
    forall c | c in r1
      ensures c in r2 && r1[c] == r2[c]
    {
      var v :| v in r1[c];
      assert Has(r1, v, c);
      assert forall w :: w in r1[c] <==> Has(r1, w, c);
    }
    forall c | c in r2
      ensures c in r1
    {
      var v :| v in r2[c];
      assert Has(r2, v, c);
    }
  }

  /** `Mentioned` depends only on which fields occur, not on their order or
      repetition. */
  lemma MentionedBySet(f1: seq<Parsed>, f2: seq<Parsed>, e: Entry, readDicts: bool)
    requires forall p :: p in f1 <==> p in f2
    ensures Mentioned(f1, e, readDicts) <==> Mentioned(f2, e, readDicts)
  {
    if Mentioned(f1, e, readDicts) {
      var i :| 0 <= i < |f1| && InGroups(if readDicts || f1[i].ListOf? then GroupsOf(f1[i]) else [], e);
      assert f1[i] in f2;
      var j :| 0 <= j < |f2| && f2[j] == f1[i];
    }
    if Mentioned(f2, e, readDicts) {
      var j :| 0 <= j < |f2| && InGroups(if readDicts || f2[j].ListOf? then GroupsOf(f2[j]) else [], e);
      assert f2[j] in f1;
      var i :| 0 <= i < |f1| && f1[i] == f2[j];
    }
  }

  /** The exclude sets do not depend on the order of the fields or on
      repeated fields: `unique()` and the sets may drop duplicates freely. */
  lemma CollectExcludeBySet(f1: seq<Parsed>, f2: seq<Parsed>)
    requires forall p :: p in f1 <==> p in f2
    ensures CollectExclude(f1) == CollectExclude(f2)
  {
    CollectExcludeHas(f1);
    CollectExcludeHas(f2);
    forall v, c
      ensures Has(CollectExclude(f1), v, c) <==> Has(CollectExclude(f2), v, c)
    {
      MentionedBySet(f1, f2, Entry(v, c), true);
    }
    SamePairsSameCategories(CollectExclude(f1), CollectExclude(f2));
  }

  /** The same for the include sets, failure included. */
  lemma CollectIncludeBySet(f1: seq<Parsed>, f2: seq<Parsed>)
    requires forall p :: p in f1 <==> p in f2
    ensures CollectInclude(f1) == CollectInclude(f2)
  {
    CollectIncludeHas(f1);
    CollectIncludeHas(f2);
    if exists i | 0 <= i < |f1| :: UnreadableDict(f1[i]) {
      var i :| 0 <= i < |f1| && UnreadableDict(f1[i]);
      assert f1[i] in f2;
    } else {
      forall j | 0 <= j < |f2|
        ensures !UnreadableDict(f2[j])
      {
        assert f2[j] in f1;
      }
      forall v, c
        ensures Has(CollectInclude(f1).value, v, c) <==> Has(CollectInclude(f2).value, v, c)
      {
        MentionedBySet(f1, f2, Entry(v, c), false);
      }
      SamePairsSameCategories(CollectInclude(f1).value, CollectInclude(f2).value);
    }
  }

  /** In the exclude sets a single dict counts as a list holding it. */
  lemma ExcludeSingleDictAsList(acc: Categories, g: Group)
    ensures ExcludeStep(acc, DictOf(g)) == ExcludeStep(acc, ListOf([g]))
  {
    assert [g][..0] == [];
    assert AddGroups(acc, [g]) == AddGroup(AddGroups(acc, []), g);
  }

  // ---------------------------------------------------------------------------
  // Key order of the category maps (a `defaultdict` keeps insertion order)

  /** The entries the loops add, in order: those of every list field, and
      for the exclude sets those of every single dict as well. */
  function FieldEntries(fields: seq<Parsed>, readDicts: bool): seq<Entry>
  {
    if fields == [] then []
    else
      var last := fields[|fields| - 1];
      FieldEntries(fields[..|fields| - 1], readDicts)
      + (if readDicts || last.ListOf? then EntriesOf(last) else [])
  }

  /** The keys of a `defaultdict` in insertion order: the keys it had, then
      each new category in the order the entries first mention it. */
  function FirstSeen(order: seq<string>, es: seq<Entry>): seq<string>
  {
    if es == [] then order
    else
      var before := FirstSeen(order, es[..|es| - 1]);
      var c := es[|es| - 1].category;
      if c in before then before else before + [c]
  }

  /** The keys of the include sets in insertion order. */
  function IncludeKeys(fields: seq<Parsed>): seq<string>
  {
    FirstSeen([], FieldEntries(fields, false))
  }

  /** The keys of the exclude sets in insertion order. */
  function ExcludeKeys(fields: seq<Parsed>): seq<string>
  {
    FirstSeen([], FieldEntries(fields, true))
  }

  predicate Distinct(xs: seq<string>)
  {
    forall i, j | 0 <= i < j < |xs| :: xs[i] != xs[j]
  }

  /** Some entry has the category. */
  predicate Categorised(es: seq<Entry>, c: string)
  {
    exists k | 0 <= k < |es| :: es[k].category == c
  }

  /** Insertion order lists every key once: the old keys first, then every
      category of the entries, and nothing else. */
  lemma {:induction false} FirstSeenSpec(order: seq<string>, es: seq<Entry>)
    requires Distinct(order)
    ensures Distinct(FirstSeen(order, es))
    ensures order <= FirstSeen(order, es)
    ensures forall c :: c in FirstSeen(order, es) <==> c in order || Categorised(es, c)
  {
    if es != [] {
      var init := es[..|es| - 1];
      var last := es[|es| - 1];
      FirstSeenSpec(order, init);
      forall c
        ensures Categorised(es, c) <==> Categorised(init, c) || last.category == c
      {
        if Categorised(es, c) {
          var k :| 0 <= k < |es| && es[k].category == c;
          if k < |init| {
            assert init[k] == es[k];
          }
        }
        if Categorised(init, c) {
          var k :| 0 <= k < |init| && init[k].category == c;
          assert es[k] == init[k];
        }
      }
    }
  }

  /** An entry is in the flattened dicts exactly when it is in one of them. */
  lemma {:induction false} FlattenHas(gs: seq<Group>, e: Entry)
    ensures e in Flatten(gs) <==> InGroups(gs, e)
  {
    if gs != [] {
      var init := gs[..|gs| - 1];
      FlattenHas(init, e);
      if InGroups(gs, e) {
        var j :| 0 <= j < |gs| && e in gs[j];
        if j < |init| {
          assert e in init[j];
        }
      }
      if InGroups(init, e) {
        var j :| 0 <= j < |init| && e in init[j];
        assert gs[j] == init[j];
      }
    }
  }

  /** The entries the loops add are exactly the mentioned ones. */
  lemma {:induction false} FieldEntriesMentioned(fields: seq<Parsed>, readDicts: bool, e: Entry)
    ensures e in FieldEntries(fields, readDicts) <==> Mentioned(fields, e, readDicts)
  {
    if fields != [] {
      var init := fields[..|fields| - 1];
      var last := fields[|fields| - 1];
      FieldEntriesMentioned(init, readDicts, e);
      MentionedSplit(fields, e, readDicts);
      FlattenHas(GroupsOf(last), e);
      if !(readDicts || last.ListOf?) {
        assert !InGroups([], e);
      }
    }
  }

  /** The exclude keys in insertion order are exactly the keys of the
      exclude sets, each once. */
  lemma ExcludeKeysSpec(fields: seq<Parsed>)
    ensures Distinct(ExcludeKeys(fields))
    ensures forall c :: c in ExcludeKeys(fields) <==> c in CollectExclude(fields)
  {
    var es := FieldEntries(fields, true);
    FirstSeenSpec([], es);
    CollectExcludeHas(fields);
    forall c
      ensures Categorised(es, c) <==> c in CollectExclude(fields)
    {
      if Categorised(es, c) {
        var k :| 0 <= k < |es| && es[k].category == c;
        FieldEntriesMentioned(fields, true, es[k]);
        assert Has(CollectExclude(fields), es[k].value, c);
      }
      if c in CollectExclude(fields) {
        var v :| v in CollectExclude(fields)[c];
        assert Has(CollectExclude(fields), v, c);
        FieldEntriesMentioned(fields, true, Entry(v, c));
        var k :| 0 <= k < |es| && es[k] == Entry(v, c);
      }
    }
  }

  /** When the include sets are computed, the include keys in insertion
      order are exactly their keys, each once. */
  lemma IncludeKeysSpec(fields: seq<Parsed>)
    requires CollectInclude(fields).Success?
    ensures Distinct(IncludeKeys(fields))
    ensures forall c :: c in IncludeKeys(fields) <==> c in CollectInclude(fields).value
  {
    var es := FieldEntries(fields, false);
    var acc := CollectInclude(fields).value;
    FirstSeenSpec([], es);
    CollectIncludeHas(fields);
    forall c
      ensures Categorised(es, c) <==> c in acc
    {
      if Categorised(es, c) {
        var k :| 0 <= k < |es| && es[k].category == c;
        FieldEntriesMentioned(fields, false, es[k]);
        assert Has(acc, es[k].value, c);
      }
      if c in acc {
        var v :| v in acc[c];
        assert Has(acc, v, c);
        FieldEntriesMentioned(fields, false, Entry(v, c));
        var k :| 0 <= k < |es| && es[k] == Entry(v, c);
      }
    }
  }

  // ---------------------------------------------------------------------------
  // Category -> list of values (extract_targeting_criteria)

  /** A `defaultdict(list)`: the categories in the order first seen, and the
      values appended under each. */
  datatype CategoryLists = CategoryLists(order: seq<string>, lists: map<string, seq<string>>)

  const NoLists := CategoryLists([], map[])

  /** `cat_vals[category].append(value)`. */
  function AppendEntry(cl: CategoryLists, e: Entry): CategoryLists
  {
    if e.category in cl.lists then
      CategoryLists(cl.order, cl.lists[e.category := cl.lists[e.category] + [e.value]])
    else
      CategoryLists(cl.order + [e.category], cl.lists[e.category := [e.value]])
  }

  function AppendGroup(cl: CategoryLists, g: Group): CategoryLists
  {
    if g == [] then cl else AppendEntry(AppendGroup(cl, g[..|g| - 1]), g[|g| - 1])
  }

  function AppendGroups(cl: CategoryLists, gs: seq<Group>): CategoryLists
  {
    if gs == [] then cl else AppendGroup(AppendGroups(cl, gs[..|gs| - 1]), gs[|gs| - 1])
  }

  /** The lists `extract_targeting_criteria` builds from a parsed field: a
      list of dicts entry by entry, a single dict likewise; `None` cannot be
      iterated. */
  function ListsOf(p: Parsed): Result<CategoryLists, CriteriaError>
  {
    match p
    case ListOf(gs) => Success(AppendGroups(NoLists, gs))
    case DictOf(g) => Success(AppendGroup(NoLists, g))
    case NoneValue => Failure(NotIterable)
  }

  /** All entries of the dicts, in order. */
  function Flatten(gs: seq<Group>): seq<Entry>
  {
    if gs == [] then [] else Flatten(gs[..|gs| - 1]) + gs[|gs| - 1]
  }

  /** The values of the entries with the given category, in order,
      duplicates kept. */
  function ValuesFor(es: seq<Entry>, category: string): seq<string>
  {
    if es == [] then []
    else ValuesFor(es[..|es| - 1], category)
         + (if es[|es| - 1].category == category then [es[|es| - 1].value] else [])
  }

  /** The list under a category, empty when it has none yet. */
  function ListAt(cl: CategoryLists, category: string): seq<string>
  {
    if category in cl.lists then cl.lists[category] else []
  }

  /** The order lists each key once and nothing else, and no list is empty. */
  ghost predicate WellKept(cl: CategoryLists)
  {
    && (forall i, j | 0 <= i < j < |cl.order| :: cl.order[i] != cl.order[j])
    && (forall c :: c in cl.lists <==> c in cl.order)
    && (forall c | c in cl.lists :: cl.lists[c] != [])
  }

  lemma {:induction false} ValuesForAppend(a: seq<Entry>, b: seq<Entry>, category: string)
    ensures ValuesFor(a + b, category) == ValuesFor(a, category) + ValuesFor(b, category)
  {
    if b != [] {
      var init := b[..|b| - 1];
      assert (a + b)[..|a + b| - 1] == a + init;
      ValuesForAppend(a, init, category);
    } else {
      assert a + b == a;
    }
  }

  /** Appending a dict's entries extends each category's list by that
      dict's values for it, in order, and keeps the old order as a prefix. */
  lemma {:induction false} AppendGroupSpec(cl: CategoryLists, g: Group)
    requires WellKept(cl)
    ensures WellKept(AppendGroup(cl, g))
    ensures forall c :: ListAt(AppendGroup(cl, g), c) == ListAt(cl, c) + ValuesFor(g, c)
    ensures cl.order <= AppendGroup(cl, g).order
  {
    if g != [] {
      var init := g[..|g| - 1];
      var e := g[|g| - 1];
      AppendGroupSpec(cl, init);
      var mid := AppendGroup(cl, init);
      AppendEntrySpec(mid, e);
      forall c
        ensures ListAt(AppendGroup(cl, g), c) == ListAt(cl, c) + ValuesFor(g, c)
      {
        AppendAssoc(ListAt(cl, c), ValuesFor(init, c), if e.category == c then [e.value] else []);
      }
    }
  }

  /** One entry: its value is appended under its category, which joins the
      order when it is new. */
  lemma AppendEntrySpec(cl: CategoryLists, e: Entry)
    requires WellKept(cl)
    ensures WellKept(AppendEntry(cl, e))
    ensures forall c :: ListAt(AppendEntry(cl, e), c) == ListAt(cl, c) + (if e.category == c then [e.value] else [])
    ensures cl.order <= AppendEntry(cl, e).order
  {
    if e.category !in cl.lists {
      assert e.category !in cl.order;
      assert cl.order <= cl.order + [e.category];
    }
  }

  lemma {:induction false} AppendGroupsSpec(cl: CategoryLists, gs: seq<Group>)
    requires WellKept(cl)
    ensures WellKept(AppendGroups(cl, gs))
    ensures forall c :: ListAt(AppendGroups(cl, gs), c) == ListAt(cl, c) + ValuesFor(Flatten(gs), c)
  {
    if gs != [] {
      var init := gs[..|gs| - 1];
      AppendGroupsSpec(cl, init);
      AppendGroupSpec(AppendGroups(cl, init), gs[|gs| - 1]);
      forall c
        ensures ValuesFor(Flatten(gs), c) == ValuesFor(Flatten(init), c) + ValuesFor(gs[|gs| - 1], c)
      {
        ValuesForAppend(Flatten(init), gs[|gs| - 1], c);
      }
    }
  }

  /** The entries a parsed field holds, in order. */
  function EntriesOf(p: Parsed): seq<Entry>
  {
    Flatten(GroupsOf(p))
  }

  /** The lists `extract_targeting_criteria` builds: every category that
      occurs, once, and under each the values paired with it, in encounter
      order with duplicates kept. */
  lemma ListsOfSpec(p: Parsed)
    requires !p.NoneValue?
    ensures WellKept(ListsOf(p).value)
    ensures forall c :: ListAt(ListsOf(p).value, c) == ValuesFor(EntriesOf(p), c)
  {
    assert WellKept(NoLists);
    match p {
      case ListOf(gs) =>
        AppendGroupsSpec(NoLists, gs);
      case DictOf(g) =>
        AppendGroupSpec(NoLists, g);
        assert [g][..0] == [];
        assert Flatten([g]) == g;
      case NoneValue =>
    }
  }

  /** `extract_targeting_criteria`'s loops over the dicts and their entries. */
  method BuildLists(p: Parsed) returns (r: Result<CategoryLists, CriteriaError>)
    ensures r == ListsOf(p)
  {
    match p {
      case NoneValue =>
        return Failure(NotIterable);
      case DictOf(g) =>
        var cl := AppendGroupLoop(NoLists, g);
        return Success(cl);
      case ListOf(gs) =>
        var cl := NoLists;
        for j := 0 to |gs|
          invariant cl == AppendGroups(NoLists, gs[..j])
        {
          assert gs[..j + 1][..j] == gs[..j];
          cl := AppendGroupLoop(cl, gs[j]);
        }
        assert gs[..|gs|] == gs;
        return Success(cl);
    }
  }

  method AppendGroupLoop(cl0: CategoryLists, g: Group) returns (cl: CategoryLists)
    ensures cl == AppendGroup(cl0, g)
  {
    cl := cl0;
    for k := 0 to |g|
      invariant cl == AppendGroup(cl0, g[..k])
    {
      assert g[..k + 1][..k] == g[..k];
      var cat := g[k].category;
      if cat in cl.lists {
        cl := cl.(lists := cl.lists[cat := cl.lists[cat] + [g[k].value]]);
      } else {
        cl := CategoryLists(cl.order + [cat], cl.lists[cat := [g[k].value]]);
      }
    }
    assert g[..|g|] == g;
  }

  // ---------------------------------------------------------------------------
  // Column names and the columns of a row

  /** The column a category's criteria go to: spaces become "_", the result
      is lower-cased, and "_" plus the field name ("include" or "exclude")
      is appended. */
  function ColumnName(category: string, kind: string): string
  {
    Lower(ReplaceChar(category, ' ', '_')) + "_" + kind
  }

  /** The targeting column list: the same rule over a list of categories. */
  function TargetingColumns(categories: seq<string>, kind: string): (cols: seq<string>)
    ensures |cols| == |categories|
    ensures forall i | 0 <= i < |cols| :: cols[i] == ColumnName(categories[i], kind)
  {
    seq(|categories|, i requires 0 <= i < |categories| => ColumnName(categories[i], kind))
  }

  predicate NoUpper(s: string) { forall i | 0 <= i < |s| :: !('A' <= s[i] <= 'Z') }

  /** Categories that are already lower-case and use no "_" get distinct
      columns. */
  lemma ColumnNameInjective(c1: string, c2: string, kind: string)
    requires NoUpper(c1) && NoUpper(c2) && '_' !in c1 && '_' !in c2
    requires ColumnName(c1, kind) == ColumnName(c2, kind)
    ensures c1 == c2
  {
    var n1 := Lower(ReplaceChar(c1, ' ', '_'));
    var n2 := Lower(ReplaceChar(c2, ' ', '_'));
    assert |n1| == |n2| by {
      assert |ColumnName(c1, kind)| == |n1| + 1 + |kind|;
      assert |ColumnName(c2, kind)| == |n2| + 1 + |kind|;
    }
    forall i | 0 <= i < |c1|
      ensures c1[i] == c2[i]
    {
      assert n1[i] == ColumnName(c1, kind)[i] == ColumnName(c2, kind)[i] == n2[i];
      assert c1[i] in c1 && c2[i] in c2;
    }
  }

  /** Categories that differ only in case or in " " against "_" share a
      column, so the later one overwrites the earlier one. */
  lemma ColumnNameCollides(kind: string)
    ensures ColumnName(['J', 'o', 'b', ' ', 't'], kind) == ColumnName(['j', 'o', 'b', '_', 't'], kind)
  {
    assert ReplaceChar(['J', 'o', 'b', ' ', 't'], ' ', '_') == ['J', 'o', 'b', '_', 't'];
    assert ReplaceChar(['j', 'o', 'b', '_', 't'], ' ', '_') == ['j', 'o', 'b', '_', 't'];
    assert Lower(['J', 'o', 'b', '_', 't']) == ['j', 'o', 'b', '_', 't'];
    assert Lower(['j', 'o', 'b', '_', 't']) == ['j', 'o', 'b', '_', 't'];
  }

  /** A cell of the ad's row, as far as the targeting columns need one. A
      missing value is filled with `False` before any column is read. */
  datatype Cell = Text(s: string) | Number(x: real) | Values(items: seq<string>) | Flag(b: bool)

  /** The row's cell under a column; a column the row does not have reads as
      the filled-in `False`. */
  function CellAt(fields: map<string, Cell>, column: string): Cell
  {
    if column in fields then fields[column] else Flag(false)
  }

  /** The row after the category columns of `order` are written, in order:
      each gets its category's list; a later category overwrites an earlier
      one with the same column. */
  function WithColumns(fields: map<string, Cell>, cl: CategoryLists, kind: string, n: nat): map<string, Cell>
    requires n <= |cl.order|
    requires forall c | c in cl.order :: c in cl.lists
  {
    if n == 0 then fields
    else
      var c := cl.order[n - 1];
      WithColumns(fields, cl, kind, n - 1)[ColumnName(c, kind) := Values(cl.lists[c])]
  }

  /** Some category among the first `n` of the order writes column `k`. */
  predicate Written(cl: CategoryLists, kind: string, n: nat, k: string)
    requires n <= |cl.order|
  {
    exists i | 0 <= i < n :: ColumnName(cl.order[i], kind) == k
  }

  /** No other category among the first `n` shares the column of the `i`-th. */
  predicate Unshared(cl: CategoryLists, kind: string, n: nat, i: nat)
    requires i < n <= |cl.order|
  {
    forall j | 0 <= j < n && j != i :: ColumnName(cl.order[j], kind) != ColumnName(cl.order[i], kind)
  }

  /** Written by the first `n`: written by the first `n - 1`, or by the last. */
  lemma WrittenStep(cl: CategoryLists, kind: string, n: nat, k: string)
    requires 0 < n <= |cl.order|
    ensures Written(cl, kind, n, k) <==> Written(cl, kind, n - 1, k) || ColumnName(cl.order[n - 1], kind) == k
  {
    if Written(cl, kind, n, k) {
      var i :| 0 <= i < n && ColumnName(cl.order[i], kind) == k;
      if i < n - 1 {
        assert Written(cl, kind, n - 1, k);
      }
    }
    if Written(cl, kind, n - 1, k) {
      var i :| 0 <= i < n - 1 && ColumnName(cl.order[i], kind) == k;
      assert Written(cl, kind, n, k);
    }
  }

  /** Writing the columns adds exactly the category columns to the row. */
  lemma {:induction false} WithColumnsKeys(fields: map<string, Cell>, cl: CategoryLists, kind: string, n: nat)
    requires n <= |cl.order|
    requires forall c | c in cl.order :: c in cl.lists
    ensures forall k :: k in WithColumns(fields, cl, kind, n) <==> k in fields || Written(cl, kind, n, k)
  {
    if n > 0 {
      WithColumnsKeys(fields, cl, kind, n - 1);
      forall k
        ensures k in WithColumns(fields, cl, kind, n) <==> k in fields || Written(cl, kind, n, k)
      {
        WrittenStep(cl, kind, n, k);
      }
    }
  }

  /** Writing the columns keeps every cell no category writes. */
  lemma {:induction false} WithColumnsKeeps(fields: map<string, Cell>, cl: CategoryLists, kind: string, n: nat)
    requires n <= |cl.order|
    requires forall c | c in cl.order :: c in cl.lists
    ensures forall k | k in fields && !Written(cl, kind, n, k) ::
              k in WithColumns(fields, cl, kind, n) && WithColumns(fields, cl, kind, n)[k] == fields[k]
  {
    if n > 0 {
      WithColumnsKeeps(fields, cl, kind, n - 1);
      forall k | k in fields && !Written(cl, kind, n, k)
        ensures k in WithColumns(fields, cl, kind, n) && WithColumns(fields, cl, kind, n)[k] == fields[k]
      {
        WrittenStep(cl, kind, n, k);
      }
    }
  }

  /** A category whose column no other category shares gets exactly its
      list. */
  lemma WithColumnsUnshared(fields: map<string, Cell>, cl: CategoryLists, kind: string, n: nat)
    requires n <= |cl.order|
    requires forall c | c in cl.order :: c in cl.lists
    ensures forall i | 0 <= i < n && Unshared(cl, kind, n, i) ::
              && ColumnName(cl.order[i], kind) in WithColumns(fields, cl, kind, n)
              && WithColumns(fields, cl, kind, n)[ColumnName(cl.order[i], kind)] == Values(cl.lists[cl.order[i]])
  {
    forall i | 0 <= i < n && Unshared(cl, kind, n, i)
      ensures ColumnName(cl.order[i], kind) in WithColumns(fields, cl, kind, n)
      ensures WithColumns(fields, cl, kind, n)[ColumnName(cl.order[i], kind)] == Values(cl.lists[cl.order[i]])
    {
      WithColumnsUnsharedAt(fields, cl, kind, n, i);
    }
  }

  /** The `i`-th category's column, by induction on the categories written. */
  lemma {:induction false} WithColumnsUnsharedAt(fields: map<string, Cell>, cl: CategoryLists, kind: string, n: nat, i: nat)
    requires i < n <= |cl.order|
    requires forall c | c in cl.order :: c in cl.lists
    requires Unshared(cl, kind, n, i)
    ensures ColumnName(cl.order[i], kind) in WithColumns(fields, cl, kind, n)
    ensures WithColumns(fields, cl, kind, n)[ColumnName(cl.order[i], kind)] == Values(cl.lists[cl.order[i]])
    decreases n
  {
    if i < n - 1 {
      UnsharedStep(cl, kind, n, i);
      WithColumnsUnsharedAt(fields, cl, kind, n - 1, i);
    }
  }

  /** Unshared among the first `n`: unshared among the first `n - 1`, and
      not sharing with the last. */
  lemma UnsharedStep(cl: CategoryLists, kind: string, n: nat, i: nat)
    requires i < n - 1 && n <= |cl.order|
    requires Unshared(cl, kind, n, i)
    ensures Unshared(cl, kind, n - 1, i)
    ensures ColumnName(cl.order[n - 1], kind) != ColumnName(cl.order[i], kind)
  {
  }

  /** A row of the ad frame, updated in place. */
  class Ad {
    var fields: map<string, Cell>

    constructor(fields0: map<string, Cell>)
      ensures fields == fields0
    {
      fields := fields0;
    }

    /** `extract_targeting_criteria(ad, kind)`, given the parsed field: group
        the values by category, then write each category's list to its
        column. A `None` field raises before anything is written. */
    method ExtractTargetingCriteria(parsed: Parsed, kind: string) returns (err: Option<CriteriaError>)
      modifies this
      ensures parsed.NoneValue? ==> err == Some(NotIterable) && fields == old(fields)
      ensures !parsed.NoneValue? ==>
                && err == None
                && ListsOfKeys(parsed)
                && fields == WithColumns(old(fields), ListsOf(parsed).value, kind, |ListsOf(parsed).value.order|)
    {
      var built := BuildLists(parsed);
      if built.Failure? {
        return Some(built.error);
      }
      var cl := built.value;
      ListsOfSpec(parsed);
      for i := 0 to |cl.order|
        invariant fields == WithColumns(old(fields), cl, kind, i)
      {
        var category := cl.order[i];
        fields := fields[ColumnName(category, kind) := Values(cl.lists[category])];
      }
      return None;
    }

    /** The loop over the targeting columns: for each, a `_use` column (1 when
        the cell is truthy) and a `_count` column (the list's length). */
    method AddUseAndCount(columns: seq<string>)
      modifies this
      ensures fields == UseCountColumns(old(fields), columns)
    {
      for i := 0 to |columns|
        invariant fields == UseCountColumns(old(fields), columns[..i])
      {
        assert columns[..i + 1][..i] == columns[..i];
        var col := columns[i];
        var cell := CellAt(fields, col);
        fields := fields[UseName(col) := Number(Use(cell) as real)][CountName(col) := Number(Count(cell) as real)];
      }
      assert columns[..|columns|] == columns;
    }
  }

  /** Every category in the order has a list (so the column writes are
      defined). */
  ghost predicate ListsOfKeys(p: Parsed)
  {
    ListsOf(p).Success? && forall c | c in ListsOf(p).value.order :: c in ListsOf(p).value.lists
  }

  /** A parsed field's category columns hold, for every category whose
      column no other category of the field shares, the values paired with
      it in encounter order; all other cells of the row are unchanged. */
  lemma ExtractedColumns(fields: map<string, Cell>, p: Parsed, kind: string)
    requires !p.NoneValue?
    ensures ListsOfKeys(p)
    ensures var cl := ListsOf(p).value;
            var r := WithColumns(fields, cl, kind, |cl.order|);
            && (forall k | k in fields && (forall c | c in cl.order :: ColumnName(c, kind) != k) :: k in r && r[k] == fields[k])
            && (forall c | c in cl.order && (forall d | d in cl.order && d != c :: ColumnName(d, kind) != ColumnName(c, kind)) ::
                  ColumnName(c, kind) in r && r[ColumnName(c, kind)] == Values(ValuesFor(EntriesOf(p), c)))
  {
    ListsOfSpec(p);
    var cl := ListsOf(p).value;
    var r := WithColumns(fields, cl, kind, |cl.order|);
    forall c | c in cl.order && (forall d | d in cl.order && d != c :: ColumnName(d, kind) != ColumnName(c, kind))
      ensures ColumnName(c, kind) in r && r[ColumnName(c, kind)] == Values(ValuesFor(EntriesOf(p), c))
    {
      ExtractedColumnWritten(fields, p, kind, c);
    }
    forall k | k in fields && (forall c | c in cl.order :: ColumnName(c, kind) != k)
      ensures k in r && r[k] == fields[k]
    {
      ExtractedColumnKept(fields, cl, kind, k);
    }
  }

  /** The column of a category no other category shares holds its values. */
  lemma ExtractedColumnWritten(fields: map<string, Cell>, p: Parsed, kind: string, c: string)
    requires !p.NoneValue?
    requires ListsOf(p).Success?
    requires var cl := ListsOf(p).value;
             && c in cl.order
             && (forall d | d in cl.order && d != c :: ColumnName(d, kind) != ColumnName(c, kind))
    ensures ListsOfKeys(p)
    ensures var cl := ListsOf(p).value;
            var r := WithColumns(fields, cl, kind, |cl.order|);
            ColumnName(c, kind) in r && r[ColumnName(c, kind)] == Values(ValuesFor(EntriesOf(p), c))
  {
    ListsOfSpec(p);
    var cl := ListsOf(p).value;
    var n := |cl.order|;
    var i :| 0 <= i < n && cl.order[i] == c;
    assert ListAt(cl, c) == cl.lists[c];
    forall j | 0 <= j < n && j != i
      ensures ColumnName(cl.order[j], kind) != ColumnName(cl.order[i], kind)
    {
      assert cl.order[j] in cl.order;
    }
    WithColumnsUnsharedAt(fields, cl, kind, n, i);
  }

  /** A cell no category's column names is unchanged. */
  lemma ExtractedColumnKept(fields: map<string, Cell>, cl: CategoryLists, kind: string, k: string)
    requires forall c | c in cl.order :: c in cl.lists
    requires k in fields && (forall c | c in cl.order :: ColumnName(c, kind) != k)
    ensures var r := WithColumns(fields, cl, kind, |cl.order|);
            k in r && r[k] == fields[k]
  {
    var n := |cl.order|;
    WithColumnsKeeps(fields, cl, kind, n);
    forall i | 0 <= i < n
      ensures ColumnName(cl.order[i], kind) != k
    {
      assert cl.order[i] in cl.order;
    }
    assert !Written(cl, kind, n, k);
  }

  // ---------------------------------------------------------------------------
  // Use and count columns (the loop over the targeting columns, and the sums)

  /** Python truthiness of a cell. */
  predicate CellTruthy(c: Cell)
  {
    match c
    case Text(s) => |s| > 0
    case Number(x) => x != 0.0
    case Values(items) => |items| > 0
    case Flag(b) => b
  }

  /** The `_use` indicator: 1 for a truthy cell, else 0. */
  function Use(c: Cell): (u: int)
    ensures u == 1 <==> CellTruthy(c)
    ensures u == 0 <==> !CellTruthy(c)
  {
    if CellTruthy(c) then 1 else 0
  }

  /** The `_count` value: the length of a list, 0 for anything else. */
  function Count(c: Cell): (n: nat)
    ensures c.Values? ==> n == |c.items|
    ensures !c.Values? ==> n == 0
  {
    if c.Values? then |c.items| else 0
  }

  /** The row after the loop has handled `columns`, in order. */
  function UseCountColumns(fields: map<string, Cell>, columns: seq<string>): map<string, Cell>
  {
    if columns == [] then fields
    else
      var prev := UseCountColumns(fields, columns[..|columns| - 1]);
      var col := columns[|columns| - 1];
      var cell := CellAt(prev, col);
      prev[UseName(col) := Number(Use(cell) as real)][CountName(col) := Number(Count(cell) as real)]
  }

  function LastChar(s: string): char
    requires s != []
  {
    s[|s| - 1]
  }

  predicate EndsWith(s: string, suffix: string)
  {
    |suffix| <= |s| && s[|s| - |suffix|..] == suffix
  }

  /** A name the loop derives: it ends in "_use" or "_count". */
  predicate Derived(k: string)
  {
    EndsWith(k, "_use") || EndsWith(k, "_count")
  }

  /** No column of the list is itself a derived name. */
  predicate NoDerivedNames(columns: seq<string>)
  {
    forall i | 0 <= i < |columns| :: !Derived(columns[i])
  }

  function UseName(col: string): string { col + "_use" }

  function CountName(col: string): string { col + "_count" }

  lemma DerivedNames(col: string)
    ensures Derived(UseName(col)) && Derived(CountName(col))
    ensures LastChar(UseName(col)) == 'e' && LastChar(CountName(col)) == 't'
  {
    assert (col + "_use")[|col + "_use"| - 4..] == "_use";
    assert (col + "_count")[|col + "_count"| - 6..] == "_count";
  }

  /** The loop writes only derived names: every other cell is unchanged. */
  lemma {:induction false} UseCountKeepsOthers(fields: map<string, Cell>, columns: seq<string>)
    ensures forall k | !Derived(k) ::
              (k in UseCountColumns(fields, columns) <==> k in fields)
              && (k in fields ==> UseCountColumns(fields, columns)[k] == fields[k])
  {
    if columns != [] {
      var col := columns[|columns| - 1];
      UseCountKeepsOthers(fields, columns[..|columns| - 1]);
      DerivedNames(col);
    }
  }

  /** When no targeting column is itself a derived name, each `_use`/`_count`
      pair reflects the column's original cell: the loop never reads a cell
      it wrote. */
  lemma {:induction false} UseCountWritesPairs(fields: map<string, Cell>, columns: seq<string>)
    requires NoDerivedNames(columns)
    ensures forall i | 0 <= i < |columns| ::
              && UseName(columns[i]) in UseCountColumns(fields, columns)
              && CountName(columns[i]) in UseCountColumns(fields, columns)
              && UseCountColumns(fields, columns)[UseName(columns[i])] == Number(Use(CellAt(fields, columns[i])) as real)
              && UseCountColumns(fields, columns)[CountName(columns[i])] == Number(Count(CellAt(fields, columns[i])) as real)
  {
    if columns != [] {
      var init := columns[..|columns| - 1];
      var col := columns[|columns| - 1];
      UseCountWritesPairs(fields, init);
      UseCountKeepsOthers(fields, init);
      var prev := UseCountColumns(fields, init);
      assert !Derived(col);
      assert CellAt(prev, col) == CellAt(fields, col);
      forall i | 0 <= i < |columns|
        ensures PairWritten(fields, UseCountColumns(fields, columns), columns[i])
      {
        if i < |init| {
          assert columns[i] == init[i];
        }
        PairAfterStep(fields, prev, col, columns[i]);
      }
    }
  }

  /** The `_use` and `_count` cells of column `c` hold what `c`'s original
      cell gives. */
  predicate PairWritten(fields: map<string, Cell>, r: map<string, Cell>, c: string)
  {
    && UseName(c) in r && CountName(c) in r
    && r[UseName(c)] == Number(Use(CellAt(fields, c)) as real)
    && r[CountName(c)] == Number(Count(CellAt(fields, c)) as real)
  }

  /** One step of the loop writes the pair of its own column and keeps the
      pairs written before. */
  lemma PairAfterStep(fields: map<string, Cell>, prev: map<string, Cell>, col: string, c: string)
    requires c != col ==> PairWritten(fields, prev, c)
    ensures PairWritten(fields, prev[UseName(col) := Number(Use(CellAt(fields, col)) as real)]
                                    [CountName(col) := Number(Count(CellAt(fields, col)) as real)], c)
  {
    DerivedNames(col);
    DerivedNames(c);
    if c != col {
      SuffixInjective(c, col, "_use");
      SuffixInjective(c, col, "_count");
    }
  }

  lemma SuffixInjective(a: string, b: string, t: string)
    requires a != b
    ensures a + t != b + t
  {
    if |a| == |b| {
      assert (a + t)[..|a|] == a && (b + t)[..|b|] == b;
    }
  }

  /** Targeting column names end in "_include" or "_exclude", so none is a
      derived name and the loop over them never reads a cell it wrote. */
  lemma TargetingColumnsNotDerived(categories: seq<string>, kind: string)
    requires kind == "include" || kind == "exclude"
    ensures NoDerivedNames(TargetingColumns(categories, kind))
  {
    var cols := TargetingColumns(categories, kind);
    forall i | 0 <= i < |cols|
      ensures !Derived(cols[i])
    {
      ColumnNameNotDerived(categories[i], kind);
    }
  }

  /** `targeting_columns`: the include columns in the include keys' order,
      then the exclude columns in the exclude keys' order. None is a
      derived name. */
  function AllTargetingColumns(includeFields: seq<Parsed>, excludeFields: seq<Parsed>): (cols: seq<string>)
    ensures |cols| == |IncludeKeys(includeFields)| + |ExcludeKeys(excludeFields)|
    ensures NoDerivedNames(cols)
  {
    var inc := TargetingColumns(IncludeKeys(includeFields), "include");
    var exc := TargetingColumns(ExcludeKeys(excludeFields), "exclude");
    TargetingColumnsNotDerived(IncludeKeys(includeFields), "include");
    TargetingColumnsNotDerived(ExcludeKeys(excludeFields), "exclude");
    NoDerivedNamesConcat(inc, exc);
    inc + exc
  }

  lemma NoDerivedNamesConcat(a: seq<string>, b: seq<string>)
    requires NoDerivedNames(a) && NoDerivedNames(b)
    ensures NoDerivedNames(a + b)
  {
    forall i | 0 <= i < |a + b|
      ensures !Derived((a + b)[i])
    {
      if i < |a| {
        assert (a + b)[i] == a[i];
      } else {
        assert (a + b)[i] == b[i - |a|];
      }
    }
  }

  lemma ColumnNameNotDerived(category: string, kind: string)
    requires kind == "include" || kind == "exclude"
    ensures !Derived(ColumnName(category, kind))
  {
    var name := ColumnName(category, kind);
    var n := |name|;
    assert name[n - 1] == 'e';
    assert name[n - 3] == 'u';
    assert name[n - 4] == 'l';
  }

  /** A cell read as a number by the row sums: a `_count` cell holds a
      number; a filled-in `False` reads as 0. */
  function CellNumber(c: Cell): real
  {
    match c
    case Number(x) => x
    case Flag(b) => if b then 1.0 else 0.0
    case _ => 0.0
  }

  /** `include_count` / `exclude_count`: the row sum of the `_count` columns
      of the given targeting columns. */
  function CountSum(fields: map<string, Cell>, columns: seq<string>): real
  {
    if columns == [] then 0.0
    else CountSum(fields, columns[..|columns| - 1]) + CellNumber(CellAt(fields, CountName(columns[|columns| - 1])))
  }

  /** The number of criteria listed in the given targeting columns. */
  function CriteriaTotal(fields: map<string, Cell>, columns: seq<string>): nat
  {
    if columns == [] then 0
    else CriteriaTotal(fields, columns[..|columns| - 1]) + Count(CellAt(fields, columns[|columns| - 1]))
  }

  /** After the use/count loop over all targeting columns, the count sum
      over any of them is the number of criteria their lists hold. */
  lemma {:induction false} CountSumIsCriteriaTotal(fields: map<string, Cell>, columns: seq<string>, sub: seq<string>)
    requires NoDerivedNames(columns)
    requires forall c | c in sub :: c in columns
    ensures CountSum(UseCountColumns(fields, columns), sub) == CriteriaTotal(fields, sub) as real
  {
    if sub != [] {
      var init := sub[..|sub| - 1];
      var c := sub[|sub| - 1];
      assert forall d | d in init :: d in sub;
      CountSumIsCriteriaTotal(fields, columns, init);
      UseCountWritesPairs(fields, columns);
      assert c in sub;
      assert c in columns;
      var i :| 0 <= i < |columns| && columns[i] == c;
    }
  }
}
