/**
 * What the scan of session data accepts and what the conversions make of it, stated on the values
 * themselves: a list of all parts with their depths, and the containers before and after.
 */
module SessionBudgets {
  import opened Results
  import opened SessionData
  import J = CanonicalJson

  // ---------------------------------------------------------------- the parts of a value

  /** A value that is part of another one, with its depth below it. */
  type Part = (Value, nat)

  /** All parts of a value, itself first. */
  function Parts(mode: Mode, v: Value, depth: nat): (parts: seq<Part>)
    ensures |parts| > 0 && parts[0] == (v, depth)
    decreases v, 1, 0
  {
    [(v, depth)] + PartsBelow(mode, v, ChildCount(mode, v), depth + 1)
  }

  function PartsBelow(mode: Mode, v: Value, k: nat, depth: nat): seq<Part>
    requires k <= ChildCount(mode, v)
    decreases v, 0, k
  {
    if k == 0 then [] else PartsBelow(mode, v, k - 1, depth) + Parts(mode, Child(mode, v, k - 1), depth)
  }

  predicate ShortPrintable(s: string) {
    |s| <= 512 && forall i :: 0 <= i < |s| ==> ' ' <= s[i] <= '~'
  }

  predicate GoodNames(entries: seq<Entry>) {
    && (forall i :: 0 <= i < |entries| ==> entries[i].key.Str? && ShortPrintable(entries[i].key.text))
    && (forall i, j :: 0 <= i < j < |entries| ==> entries[i].key != entries[j].key)
  }

  predicate GoodPairs(pairs: seq<Value>) {
    && (forall i :: 0 <= i < |pairs| ==>
          pairs[i].Tuple? && |pairs[i].items| == 2 && pairs[i].items[0].Str?
          && ShortPrintable(pairs[i].items[0].text))
    && (forall i, j | 0 <= i < j < |pairs| :: pairs[i].items[0] != pairs[j].items[0])
  }

  /** What a part may be on its own. */
  predicate GoodPart(mode: Mode, part: Part) {
    match part.0
    case Null => part.1 <= 16
    case Bool(_) => part.1 <= 16
    case Int(n) => part.1 <= 16 && -0x8000_0000_0000_0000 <= n < 0x8000_0000_0000_0000
    case Str(s) => part.1 <= 16 && ShortPrintable(s)
    case List(_, _) => part.1 < 16
    case Dict(_, entries) => part.1 < 16 && GoodNames(entries)
    case Tuple(_, items) => part.1 < 16 && (mode.Freezing? ==> GoodPairs(items))
    case Proxy(_, entries) => part.1 < 16 && mode.Materializing? && GoodNames(entries)
    case Other => false
  }

  function Letters(keys: seq<Value>): nat {
    if keys == [] then 0
    else Letters(keys[..|keys| - 1]) + if keys[|keys| - 1].Str? then |keys[|keys| - 1].text| else 0
  }

  /** The keys that stand in a container. */
  function KeysIn(mode: Mode, v: Value): seq<Value> {
    match v
    case Dict(_, entries) => seq(|entries|, (i: nat) requires i < |entries| => entries[i].key)
    case Proxy(_, entries) => seq(|entries|, (i: nat) requires i < |entries| => entries[i].key)
    case Tuple(_, items) =>
      if mode.Materializing? then []
      else seq(|items|, (i: nat) requires i < |items| =>
             if items[i].Tuple? && |items[i].items| == 2 then items[i].items[0] else Null)
    case _ => []
  }

  /** The printed text of a scalar, and two, one per child and the keys of a container. */
  function PartBytes(mode: Mode, v: Value): nat {
    match v
    case Null => |"null"|
    case Bool(b) => |if b then "true" else "false"|
    case Int(n) => |J.Print(J.Int(n))|
    case Str(s) => |s|
    case List(_, items) => 2 + |items|
    case Tuple(_, items) => 2 + |items| + Letters(KeysIn(mode, v))
    case Dict(_, entries) => 2 + |entries| + Letters(KeysIn(mode, v))
    case Proxy(_, entries) => 2 + |entries| + Letters(KeysIn(mode, v))
    case Other => 0
  }

  function AllBytes(mode: Mode, parts: seq<Part>): nat {
    if parts == [] then 0
    else AllBytes(mode, parts[..|parts| - 1]) + PartBytes(mode, parts[|parts| - 1].0)
  }

  /** Two parts that are the same container object; an empty tuple is none. */
  predicate SameObject(a: Value, b: Value) {
    Container(a) && Container(b) && a.id == b.id
  }

  predicate Container(v: Value) {
    v.List? || v.Dict? || v.Proxy? || (v.Tuple? && v.items != [])
  }

  /** At most 256 parts, at most 8192 bytes, every part good on its own, no container twice. */
  predicate WithinBudgets(mode: Mode, v: Value) {
    var parts := Parts(mode, v, 0);
    && |parts| <= 256
    && AllBytes(mode, parts) <= 8192
    && (forall k :: 0 <= k < |parts| ==> GoodPart(mode, parts[k]))
    && NoObjectTwice(parts)
  }

  predicate NoObjectTwice(parts: seq<Part>) {
    forall j, k :: 0 <= j < k < |parts| ==> !SameObject(parts[j].0, parts[k].0)
  }

  // ---------------------------------------------------------------- the load is that of the parts

  function LoadOf(mode: Mode, part: Part): Load {
    Local(View(mode, part.0), part.1)
  }

  function PartsLoad(mode: Mode, parts: seq<Part>): Load {
    if parts == [] then NOTHING
    else Plus(PartsLoad(mode, parts[..|parts| - 1]), LoadOf(mode, parts[|parts| - 1]))
  }

  lemma {:induction false} LoadsAddUp(mode: Mode, a: seq<Part>, b: seq<Part>)
    ensures PartsLoad(mode, a + b) == Plus(PartsLoad(mode, a), PartsLoad(mode, b))
    decreases |b|
  {
    if b == [] {
      assert a + b == a;
      PlusLaws(PartsLoad(mode, a), NOTHING, NOTHING);
    } else {
      var n := |b| - 1;
      assert (a + b)[..|a + b| - 1] == a + b[..n];
      LoadsAddUp(mode, a, b[..n]);
      PlusLaws(PartsLoad(mode, a), PartsLoad(mode, b[..n]), LoadOf(mode, b[n]));
    }
  }

  lemma {:induction false} CostIsThatOfParts(mode: Mode, v: Value, depth: nat)
    ensures Cost(View(mode, v), depth) == PartsLoad(mode, Parts(mode, v, depth))
    decreases v, 1, 0
  {
    var t := View(mode, v);
    var k := ChildCount(mode, v);
    CostBelowIsThatOfParts(mode, v, k, depth + 1);
    assert t.children[..k] == t.children;
    LoadsAddUp(mode, [(v, depth)], PartsBelow(mode, v, k, depth + 1));
    OnePart(mode, (v, depth));
  }

  lemma OnePart(mode: Mode, part: Part)
    ensures PartsLoad(mode, [part]) == LoadOf(mode, part)
  {
    assert [part][..0] == [];
    PlusLaws(NOTHING, LoadOf(mode, part), NOTHING);
    PlusLaws(LoadOf(mode, part), NOTHING, NOTHING);
  }

  lemma {:induction false} CostBelowIsThatOfParts(mode: Mode, v: Value, k: nat, depth: nat)
    requires k <= ChildCount(mode, v)
    ensures CostAll(View(mode, v).children[..k], depth) == PartsLoad(mode, PartsBelow(mode, v, k, depth))
    decreases v, 0, k
  {
    hide Cost, Plus, KindOf, CheckedId, LoadOf, PartsLoad;
    if k == 0 {
      NothingBelow(mode, v, depth);
    } else {
      CostBelowIsThatOfParts(mode, v, k - 1, depth);
      CostIsThatOfParts(mode, Child(mode, v, k - 1), depth);
      OneMoreBelow(mode, v, k, depth);
      LoadsAddUp(mode, PartsBelow(mode, v, k - 1, depth), Parts(mode, Child(mode, v, k - 1), depth));
    }
  }

  lemma NothingBelow(mode: Mode, v: Value, depth: nat)
    ensures CostAll(View(mode, v).children[..0], depth) == PartsLoad(mode, PartsBelow(mode, v, 0, depth))
  {
  }

  lemma OneMoreBelow(mode: Mode, v: Value, k: nat, depth: nat)
    requires 0 < k <= ChildCount(mode, v)
    ensures CostAll(View(mode, v).children[..k], depth)
      == Plus(CostAll(View(mode, v).children[..k - 1], depth), Cost(View(mode, Child(mode, v, k - 1)), depth))
  {
    hide Cost, Plus;
    var trees := View(mode, v).children;
    assert trees[..k][..k - 1] == trees[..k - 1];
    assert trees[..k][k - 1] == View(mode, Child(mode, v, k - 1));
  }

  // ---------------------------------------------------------------- the load of one part

  lemma {:induction false} KeysAreNames(keys: seq<Option<string>>, names: seq<Value>)
    requires |keys| == |names|
    requires forall i :: 0 <= i < |keys| ==> keys[i] == if names[i].Str? then Some(names[i].text) else None
    ensures KeyBytes(keys) == Letters(names)
    decreases |keys|
  {
    if keys != [] {
      KeysAreNames(keys[..|keys| - 1], names[..|names| - 1]);
    }
  }

  predicate NamesAreGood(names: seq<Value>) {
    && (forall i :: 0 <= i < |names| ==> names[i].Str? && ShortPrintable(names[i].text))
    && (forall i, j :: 0 <= i < j < |names| ==> names[i] != names[j])
  }

  lemma GoodKeysAreGoodNames(keys: seq<Option<string>>, names: seq<Value>)
    requires |keys| == |names|
    requires forall i :: 0 <= i < |keys| ==> keys[i] == if names[i].Str? then Some(names[i].text) else None
    ensures GoodKeys(keys) <==> NamesAreGood(names)
  {
    if GoodKeys(keys) {
      forall i, j | 0 <= i < j < |names|
        ensures names[i] != names[j]
      {
        assert keys[i] != keys[j];
      }
    }
    if NamesAreGood(names) {
      forall i, j | 0 <= i < j < |keys|
        ensures keys[i] != keys[j]
      {
        assert names[i] != names[j];
      }
    }
  }

  function OwnId(v: Value): multiset<nat> {
    if Container(v) then multiset{v.id} else multiset{}
  }

  /** What the scan charges for one part: it is sound exactly when the part is good. */
  ghost predicate Charged(mode: Mode, part: Part) {
    var l := LoadOf(mode, part);
    && l.nodes == 1
    && (l.sound <==> GoodPart(mode, part))
    && (l.sound ==> l.bytes == PartBytes(mode, part.0) && l.ids == OwnId(part.0))
  }

  lemma ScalarIsCharged(mode: Mode, v: Value, depth: nat)
    requires v.Null? || v.Bool? || v.Int? || v.Str? || v.Other?
    ensures Charged(mode, (v, depth))
  {
    BytesAreText(KindOf(mode, v), 0);
  }

  lemma ArrayIsCharged(mode: Mode, v: Value, depth: nat)
    requires IsArray(mode, v)
    ensures Charged(mode, (v, depth))
  {
  }

  lemma ObjectIsCharged(mode: Mode, v: Value, depth: nat)
    requires IsObject(mode, v) && !IsArray(mode, v)
    ensures Charged(mode, (v, depth))
  {
    var keys, names := KindOf(mode, v).keys, KeysIn(mode, v);
    KeysAreNames(keys, names);
    GoodKeysAreGoodNames(keys, names);
    if v.Tuple? {
      NamesOfPairs(v.items, names);
    } else {
      NamesOfEntries(v.entries, names);
    }
  }

  lemma NamesOfEntries(entries: seq<Entry>, names: seq<Value>)
    requires |entries| == |names| && forall i :: 0 <= i < |names| ==> names[i] == entries[i].key
    ensures NamesAreGood(names) <==> GoodNames(entries)
  {
    if NamesAreGood(names) {
      forall i, j | 0 <= i < j < |entries|
        ensures entries[i].key != entries[j].key
      {
        assert names[i] != names[j];
      }
    }
  }

  lemma NamesOfPairs(pairs: seq<Value>, names: seq<Value>)
    requires |pairs| == |names|
    requires forall i :: 0 <= i < |pairs| ==> IsPair(pairs[i]) && names[i] == pairs[i].items[0]
    ensures NamesAreGood(names) <==> GoodPairs(pairs)
  {
    if NamesAreGood(names) {
      forall i, j | 0 <= i < j < |pairs|
        ensures pairs[i].items[0] != pairs[j].items[0]
      {
        assert names[i] != names[j];
      }
    }
  }

  lemma ForeignIsCharged(mode: Mode, v: Value, depth: nat)
    requires mode.Freezing? && (v.Tuple? || v.Proxy?) && !IsObject(mode, v)
    ensures Charged(mode, (v, depth))
  {
    if v.Tuple? {
      var i :| 0 <= i < |v.items| && !IsPair(v.items[i]);
      assert !GoodPairs(v.items);
    }
  }

  lemma PartIsCharged(mode: Mode, part: Part)
    ensures Charged(mode, part)
  {
    hide Charged;
    var (v, depth) := part;
    if IsArray(mode, v) {
      ArrayIsCharged(mode, v, depth);
    } else if IsObject(mode, v) {
      ObjectIsCharged(mode, v, depth);
    } else if v.Tuple? || v.Proxy? {
      ForeignIsCharged(mode, v, depth);
    } else {
      ScalarIsCharged(mode, v, depth);
    }
  }

  // ---------------------------------------------------------------- all parts together

  function AllIds(parts: seq<Part>): multiset<nat> {
    if parts == [] then multiset{} else AllIds(parts[..|parts| - 1]) + OwnId(parts[|parts| - 1].0)
  }

  lemma {:induction false} PartsAreCharged(mode: Mode, parts: seq<Part>)
    ensures var l := PartsLoad(mode, parts);
      && l.nodes == |parts|
      && (l.sound <==> forall k :: 0 <= k < |parts| ==> GoodPart(mode, parts[k]))
      && (l.sound ==> l.bytes == AllBytes(mode, parts) && l.ids == AllIds(parts))
    decreases |parts|
  {
    hide LoadOf, GoodPart, PartBytes, OwnId;
    if parts != [] {
      var n := |parts| - 1;
      PartsAreCharged(mode, parts[..n]);
      PartIsCharged(mode, parts[n]);
      assert parts == parts[..n] + [parts[n]];
    }
  }

  lemma {:induction false} IdIsOfAPart(parts: seq<Part>, id: nat)
    ensures AllIds(parts)[id] > 0 <==> exists k :: 0 <= k < |parts| && id in OwnId(parts[k].0)
    decreases |parts|
  {
    hide OwnId;
    if parts != [] {
      var n := |parts| - 1;
      IdIsOfAPart(parts[..n], id);
      assert parts == parts[..n] + [parts[n]];
    }
  }

  ghost predicate NoRepeat(ids: multiset<nat>) {
    forall id :: ids[id] <= 1
  }

  lemma OneMoreId(ids: multiset<nat>, v: Value)
    ensures NoRepeat(ids + OwnId(v)) <==> NoRepeat(ids) && (Container(v) ==> ids[v.id] == 0)
  {
    var all := ids + OwnId(v);
    assert forall id :: all[id] == ids[id] + OwnId(v)[id];
    if NoRepeat(all) {
      assert forall id :: ids[id] <= all[id] <= 1;
      if Container(v) {
        assert all[v.id] <= 1;
      }
    }
  }

  lemma OneMoreObject(parts: seq<Part>, last: Part)
    ensures NoObjectTwice(parts + [last]) <==>
      NoObjectTwice(parts) && forall k :: 0 <= k < |parts| ==> !SameObject(parts[k].0, last.0)
  {
    hide SameObject;
    var all := parts + [last];
    if NoObjectTwice(all) {
      assert forall k :: 0 <= k < |parts| ==> parts[k] == all[k];
      assert all[|parts|] == last;
    }
  }

  lemma {:induction false} IdsAreDistinct(parts: seq<Part>)
    ensures NoRepeat(AllIds(parts)) <==> NoObjectTwice(parts)
    decreases |parts|
  {
    if parts != [] {
      hide NoRepeat, NoObjectTwice;
      var n := |parts| - 1;
      var before, last := parts[..n], parts[n];
      assert parts == before + [last];
      IdsAreDistinct(before);
      OneMoreId(AllIds(before), last.0);
      OneMoreObject(before, last);
      LastIdIsNew(before, last.0);
    }
  }

  lemma LastIdIsNew(parts: seq<Part>, v: Value)
    ensures (Container(v) ==> AllIds(parts)[v.id] == 0)
       <==> forall k :: 0 <= k < |parts| ==> !SameObject(parts[k].0, v)
  {
    hide AllIds;
    if Container(v) {
      IdIsOfAPart(parts, v.id);
      assert forall k :: 0 <= k < |parts| ==> (SameObject(parts[k].0, v) <==> v.id in OwnId(parts[k].0));
    }
  }

  /** The scan accepts a value exactly when its parts are within the budgets. */
  lemma FitsMeans(mode: Mode, v: Value)
    ensures Fits(Cost(View(mode, v), 0)) <==> WithinBudgets(mode, v)
  {
    hide GoodPart, NoObjectTwice, AllBytes, AllIds, PartsLoad;
    var parts := Parts(mode, v, 0);
    CostIsThatOfParts(mode, v, 0);
    PartsAreCharged(mode, parts);
    IdsAreDistinct(parts);
  }

  // ---------------------------------------------------------------- what the conversions make

  /** Lists become tuples, objects read-only mappings with the same keys; scalars stay. */
  ghost predicate IsFrozen(v: Value, r: Value) {
    match v
    case List(_, items) =>
      r.Tuple? && |r.items| == |items| && forall i :: 0 <= i < |items| ==> IsFrozen(items[i], r.items[i])
    case Dict(_, entries) =>
      && r.Proxy? && |r.entries| == |entries|
      && forall i :: 0 <= i < |entries| ==>
           r.entries[i].key == entries[i].key && IsFrozen(entries[i].value, r.entries[i].value)
    case Tuple(_, pairs) =>
      && r.Proxy? && |r.entries| == |pairs|
      && forall i :: 0 <= i < |pairs| ==>
           && pairs[i].Tuple? && |pairs[i].items| == 2
           && r.entries[i].key == pairs[i].items[0] && IsFrozen(pairs[i].items[1], r.entries[i].value)
    case Proxy(_, _) => false
    case Other => false
    case _ => r == v
  }

  /** Lists and tuples become lists, objects dicts with the same keys; scalars stay. */
  ghost predicate IsThawed(v: Value, r: Value) {
    match v
    case List(_, items) =>
      r.List? && |r.items| == |items| && forall i :: 0 <= i < |items| ==> IsThawed(items[i], r.items[i])
    case Tuple(_, items) =>
      r.List? && |r.items| == |items| && forall i :: 0 <= i < |items| ==> IsThawed(items[i], r.items[i])
    case Dict(_, entries) =>
      && r.Dict? && |r.entries| == |entries|
      && forall i :: 0 <= i < |entries| ==>
           r.entries[i].key == entries[i].key && IsThawed(entries[i].value, r.entries[i].value)
    case Proxy(_, entries) =>
      && r.Dict? && |r.entries| == |entries|
      && forall i :: 0 <= i < |entries| ==>
           r.entries[i].key == entries[i].key && IsThawed(entries[i].value, r.entries[i].value)
    case Other => false
    case _ => r == v
  }

  lemma {:induction false} RebuildFreezes(v: Value, next: nat)
    requires Sound(View(Freezing, v))
    ensures IsFrozen(v, Rebuild(Freezing, v, next).0)
    decreases v, 1, 0
  {
    var kind, k := KindOf(Freezing, v), ChildCount(Freezing, v);
    if !kind.Leaf? {
      var (items, id) := RebuildTo(Freezing, v, next, k);
      forall i | 0 <= i < k
        ensures IsFrozen(Child(Freezing, v, i), items[i])
      {
        RebuildFreezesChild(v, next, k, i);
      }
      BuiltIsFrozen(v, id, items);
    }
  }

  lemma {:induction false} RebuildFreezesChild(v: Value, next: nat, k: nat, i: nat)
    requires i < k <= ChildCount(Freezing, v) && Sound(View(Freezing, v))
    ensures IsFrozen(Child(Freezing, v, i), RebuildTo(Freezing, v, next, k).0[i])
    decreases v, 0, k
  {
    hide IsFrozen;
    var (before, n) := RebuildTo(Freezing, v, next, k - 1);
    var child := Child(Freezing, v, k - 1);
    assert RebuildTo(Freezing, v, next, k).0 == before + [Rebuild(Freezing, child, n).0];
    if i < k - 1 {
      RebuildFreezesChild(v, next, k - 1, i);
    } else {
      assert View(Freezing, v).children[i] == View(Freezing, child);
      RebuildFreezes(child, n);
    }
  }

  lemma BuiltIsFrozen(v: Value, id: nat, items: seq<Value>)
    requires !KindOf(Freezing, v).Leaf? && KindIsGood(KindOf(Freezing, v)) && |items| == ChildCount(Freezing, v)
    requires forall i :: 0 <= i < |items| ==> IsFrozen(Child(Freezing, v, i), items[i])
    ensures IsFrozen(v, Built(Freezing, KindOf(Freezing, v), id, items))
  {
    var r := Built(Freezing, KindOf(Freezing, v), id, items);
    forall i | 0 <= i < |items|
      ensures v.List? ==> IsFrozen(v.items[i], items[i])
      ensures v.Dict? ==> IsFrozen(v.entries[i].value, items[i]) && r.entries[i].key == v.entries[i].key
      ensures v.Tuple? ==>
        && IsPair(v.items[i]) && IsFrozen(v.items[i].items[1], items[i])
        && r.entries[i].key == v.items[i].items[0]
    {
      var c := Child(Freezing, v, i);
    }
  }

  lemma {:induction false} RebuildThaws(v: Value, next: nat)
    requires Sound(View(Materializing, v))
    ensures IsThawed(v, Rebuild(Materializing, v, next).0)
    decreases v, 1, 0
  {
    var kind, k := KindOf(Materializing, v), ChildCount(Materializing, v);
    if !kind.Leaf? {
      var (items, id) := RebuildTo(Materializing, v, next, k);
      forall i | 0 <= i < k
        ensures IsThawed(Child(Materializing, v, i), items[i])
      {
        RebuildThawsChild(v, next, k, i);
      }
      BuiltIsThawed(v, id, items);
    }
  }

  lemma {:induction false} RebuildThawsChild(v: Value, next: nat, k: nat, i: nat)
    requires i < k <= ChildCount(Materializing, v) && Sound(View(Materializing, v))
    ensures IsThawed(Child(Materializing, v, i), RebuildTo(Materializing, v, next, k).0[i])
    decreases v, 0, k
  {
    hide IsThawed;
    var (before, n) := RebuildTo(Materializing, v, next, k - 1);
    var child := Child(Materializing, v, k - 1);
    assert RebuildTo(Materializing, v, next, k).0 == before + [Rebuild(Materializing, child, n).0];
    if i < k - 1 {
      RebuildThawsChild(v, next, k - 1, i);
    } else {
      assert View(Materializing, v).children[i] == View(Materializing, child);
      RebuildThaws(child, n);
    }
  }

  lemma BuiltIsThawed(v: Value, id: nat, items: seq<Value>)
    requires var kind := KindOf(Materializing, v);
      !kind.Leaf? && KindIsGood(kind) && |items| == ChildCount(Materializing, v)
    requires forall i :: 0 <= i < |items| ==> IsThawed(Child(Materializing, v, i), items[i])
    ensures IsThawed(v, Built(Materializing, KindOf(Materializing, v), id, items))
  {
    var r := Built(Materializing, KindOf(Materializing, v), id, items);
    forall i | 0 <= i < |items|
      ensures v.List? || v.Tuple? ==> IsThawed(v.items[i], items[i])
      ensures v.Dict? || v.Proxy? ==>
        IsThawed(v.entries[i].value, items[i]) && r.entries[i].key == v.entries[i].key
    {
      var c := Child(Materializing, v, i);
    }
  }

  /** What a successful conversion gives. */
  lemma ConversionMeans(mode: Mode, v: Value, next: nat)
    requires WithinBudgets(mode, v)
    ensures var r := Rebuild(mode, v, next).0;
      if mode.Freezing? then IsFrozen(v, r) else IsThawed(v, r)
  {
    hide IsFrozen, IsThawed, WithinBudgets;
    FitsMeans(mode, v);
    FittingIsSound(View(mode, v), 0);
    if mode.Freezing? {
      RebuildFreezes(v, next);
    } else {
      RebuildThaws(v, next);
    }
  }

  /** A configuration is admitted exactly within the budgets, and comes back frozen from its thawed form. */
  lemma AdmissionMeans(data: Value, relations: Tree -> bool, next: nat)
    ensures Admissible(data, relations, next) <==>
      data.Proxy? && WithinBudgets(Materializing, data) && relations(Data(View(Materializing, data)))
    ensures Admissible(data, relations, next) ==>
      exists thawed :: IsThawed(data, thawed) && IsFrozen(thawed, Admitted(data, next).0)
  {
    hide IsFrozen, IsThawed, WithinBudgets;
    AdmissionIsOneScan(data, relations, next);
    FitsMeans(Materializing, data);
    if Admissible(data, relations, next) {
      var (thawed, n) := Rebuild(Materializing, data, next);
      ConversionMeans(Materializing, data, next);
      FitsMeans(Freezing, thawed);
      ConversionMeans(Freezing, thawed, n);
    }
  }
}
