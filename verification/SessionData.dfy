/**
 * Bounded freezing and materializing of session data: an iterative budget scan over a pending
 * stack, and a recursive rebuild that scans every subtree again.
 */
module SessionData {
  import opened Results
  import J = CanonicalJson

  const MAX_SESSION_CONFIG_BYTES: nat := 8192
  const MAX_SESSION_NODES: nat := 256
  const MAX_SESSION_DEPTH: nat := 16
  const MAX_SESSION_STRING_BYTES: nat := 512
  const MIN_SESSION_INTEGER: int := -9223372036854775808
  const MAX_SESSION_INTEGER: int := 9223372036854775807

  /** Python values; containers carry their object identity. */
  datatype Value =
    | Null
    | Bool(flag: bool)
    | Int(number: int)
    | Str(text: string)
    | List(id: nat, items: seq<Value>)
    | Tuple(id: nat, items: seq<Value>)
    | Dict(id: nat, entries: seq<Entry>)
    | Proxy(id: nat, entries: seq<Entry>)
    | Other

  datatype Entry = Entry(key: Value, value: Value)

  /** Which of the two scans reads a value: they accept different container types. */
  datatype Mode = Freezing | Materializing

  function Opposite(mode: Mode): Mode {
    if mode.Freezing? then Materializing else Freezing
  }

  // ---------------------------------------------------------------- reading a value

  /** Freezing reads a tuple as the key-value pairs of a JSON object. */
  predicate IsPair(v: Value) {
    v.Tuple? && |v.items| == 2 && v.items[0].Str?
  }

  predicate IsArray(mode: Mode, v: Value) {
    v.List? || (mode.Materializing? && v.Tuple?)
  }

  predicate IsObject(mode: Mode, v: Value) {
    || v.Dict?
    || (mode.Materializing? && v.Proxy?)
    || (mode.Freezing? && v.Tuple? && forall i :: 0 <= i < |v.items| ==> IsPair(v.items[i]))
  }

  function ChildCount(mode: Mode, v: Value): nat {
    if IsArray(mode, v) then |v.items|
    else if IsObject(mode, v) then (if v.Tuple? then |v.items| else |v.entries|)
    else 0
  }

  function Child(mode: Mode, v: Value, i: nat): (c: Value)
    requires i < ChildCount(mode, v)
    ensures c < v
  {
    if IsArray(mode, v) then v.items[i]
    else if v.Tuple? then
      assert v.items[i].items[1] < v.items[i];
      assert IsPair(v.items[i]);
      v.items[i].items[1]
    else
      assert v.entries[i].value < v.entries[i];
      v.entries[i].value
  }

  function KeyAt(mode: Mode, v: Value, i: nat): Option<string>
    requires IsObject(mode, v) && i < ChildCount(mode, v)
  {
    var key := if v.Tuple? then v.items[i].items[0] else v.entries[i].key;
    if key.Str? then Some(key.text) else None
  }

  /** What a node is once its container type and identity are set aside. */
  datatype Kind = Leaf(scalar: Value) | Sequence | Mapping(keys: seq<Option<string>>)

  /** A value as one of the scans reads it; `id` is the identity that the alias check records. */
  datatype Tree = Node(kind: Kind, id: Option<nat>, children: seq<Tree>)

  function KindOf(mode: Mode, v: Value): Kind {
    if IsArray(mode, v) then Sequence
    else if IsObject(mode, v) then
      Mapping(seq(ChildCount(mode, v), (i: nat) requires i < ChildCount(mode, v) => KeyAt(mode, v, i)))
    else Leaf(if v.Null? || v.Bool? || v.Int? || v.Str? then v else Other)
  }

  /** None for scalars and for the empty tuple, of which there is only one object. */
  function CheckedId(mode: Mode, v: Value): Option<nat> {
    if !IsArray(mode, v) && !IsObject(mode, v) then None
    else if v.Tuple? && v.items == [] then None
    else Some(v.id)
  }

  function View(mode: Mode, v: Value): (t: Tree)
    ensures |t.children| == ChildCount(mode, v)
  {
    Node(KindOf(mode, v), CheckedId(mode, v),
         seq(ChildCount(mode, v), (i: nat) requires i < ChildCount(mode, v) => View(mode, Child(mode, v, i))))
  }

  // ---------------------------------------------------------------- budgets

  predicate Printable(s: string) {
    |s| <= MAX_SESSION_STRING_BYTES && forall i :: 0 <= i < |s| ==> 32 <= s[i] as int <= 126
  }

  /** Keys are distinct strings; for a dict the first half holds by itself. */
  predicate GoodKeys(keys: seq<Option<string>>) {
    && (forall i, j :: 0 <= i < j < |keys| ==> keys[i] != keys[j])
    && (forall i :: 0 <= i < |keys| ==> keys[i].Some? && Printable(keys[i].value))
  }

  function KeyBytes(keys: seq<Option<string>>): nat {
    if keys == [] then 0
    else
      var last := keys[|keys| - 1];
      KeyBytes(keys[..|keys| - 1]) + if last.Some? then |last.value| else 0
  }

  /** The length of the decimal text of an integer. */
  function TextLength(n: int): nat
    decreases if n < 0 then 1 - n else n
  {
    if n < 0 then 1 + TextLength(-n) else if n < 10 then 1 else 1 + TextLength(n / 10)
  }

  function KindBytes(kind: Kind, count: nat): nat {
    match kind
    case Sequence => 2 + count
    case Mapping(keys) => 2 + count + KeyBytes(keys)
    case Leaf(Str(s)) => |s|
    case Leaf(Bool(b)) => if b then 4 else 5
    case Leaf(Null) => 4
    case Leaf(Int(n)) => TextLength(n)
    case Leaf(_) => 0
  }

  lemma {:induction false} TextLengthIsLength(n: nat)
    ensures TextLength(n) == |J.PrintNat(n)|
    decreases n
  {
    if n >= 10 {
      TextLengthIsLength(n / 10);
    }
  }

  /** All keys in a row. */
  function JoinedKeys(keys: seq<Option<string>>): string {
    if keys == [] then ""
    else
      JoinedKeys(keys[..|keys| - 1]) + if keys[|keys| - 1].Some? then keys[|keys| - 1].value else ""
  }

  lemma {:induction false} KeyBytesAreLetters(keys: seq<Option<string>>)
    ensures KeyBytes(keys) == |JoinedKeys(keys)|
    decreases |keys|
  {
    if keys != [] {
      KeyBytesAreLetters(keys[..|keys| - 1]);
    }
  }

  /** The bytes charged: the text of a scalar without quotes; two and one per child for a container, and its keys. */
  lemma BytesAreText(kind: Kind, count: nat)
    ensures match kind
      case Leaf(Str(s)) => KindBytes(kind, count) == |s|
      case Leaf(Bool(b)) => KindBytes(kind, count) == |J.Print(J.Bool(b))|
      case Leaf(Null) => KindBytes(kind, count) == |J.Print(J.Null)|
      case Leaf(Int(n)) => KindBytes(kind, count) == |J.Print(J.Int(n))|
      case Leaf(_) => KindBytes(kind, count) == 0
      case Sequence => KindBytes(kind, count) == 2 + count
      case Mapping(keys) => KindBytes(kind, count) == 2 + count + |JoinedKeys(keys)|
  {
    match kind
    case Leaf(Int(n)) => TextLengthIsLength(if n < 0 then -n else n);
    case Mapping(keys) => KeyBytesAreLetters(keys);
    case _ =>
  }

  predicate KindIsGood(kind: Kind) {
    match kind
    case Sequence => true
    case Mapping(keys) => GoodKeys(keys)
    case Leaf(Str(s)) => Printable(s)
    case Leaf(Bool(_)) => true
    case Leaf(Null) => true
    case Leaf(Int(n)) => MIN_SESSION_INTEGER <= n <= MAX_SESSION_INTEGER
    case Leaf(_) => false
  }

  /** Containers may stand no deeper than one level above the deepest scalar. */
  predicate DepthIsGood(kind: Kind, depth: nat) {
    depth < MAX_SESSION_DEPTH || (depth == MAX_SESSION_DEPTH && kind.Leaf?)
  }

  /** What a part of the tree consumes: nodes, bytes, identities, and whether all of it is allowed. */
  datatype Load = Load(nodes: nat, bytes: nat, ids: multiset<nat>, sound: bool)

  const NOTHING := Load(0, 0, multiset{}, true)

  function Plus(a: Load, b: Load): Load {
    Load(a.nodes + b.nodes, a.bytes + b.bytes, a.ids + b.ids, a.sound && b.sound)
  }

  predicate Fits(l: Load) {
    && l.sound
    && l.nodes <= MAX_SESSION_NODES && l.bytes <= MAX_SESSION_CONFIG_BYTES
    && forall id :: id in l.ids ==> l.ids[id] <= 1
  }

  function Ids(id: Option<nat>): multiset<nat> {
    if id.Some? then multiset{id.value} else multiset{}
  }

  /** The load of one node on its own. */
  function Local(t: Tree, depth: nat): Load {
    Load(1, KindBytes(t.kind, |t.children|), Ids(t.id), KindIsGood(t.kind) && DepthIsGood(t.kind, depth))
  }

  /** The load of a whole tree whose root is at the given depth. */
  function Cost(t: Tree, depth: nat): (l: Load)
    ensures l.nodes >= 1
    decreases t
  {
    Plus(Local(t, depth), CostAll(t.children, depth + 1))
  }

  function CostAll(trees: seq<Tree>, depth: nat): (l: Load)
    ensures l.nodes >= |trees|
    decreases trees
  {
    if trees == [] then NOTHING
    else Plus(CostAll(trees[..|trees| - 1], depth), Cost(trees[|trees| - 1], depth))
  }

  lemma PlusLaws(a: Load, b: Load, c: Load)
    ensures Plus(Plus(a, b), c) == Plus(a, Plus(b, c))
    ensures Plus(a, b) == Plus(b, a) && Plus(a, NOTHING) == a
  {
    assert (a.ids + b.ids) + c.ids == a.ids + (b.ids + c.ids);
    assert a.ids + b.ids == b.ids + a.ids;
    assert a.ids + multiset{} == a.ids;
  }

  /** Moving a local load from the stack to the counters conserves the total. */
  lemma Shuffle(spent: Load, rest: Load, local: Load, children: Load)
    ensures Plus(spent, Plus(rest, Plus(local, children)))
         == Plus(Plus(spent, local), Plus(rest, children))
  {
    var s, r, l, c := spent.ids, rest.ids, local.ids, children.ids;
    assert s + (r + (l + c)) == (s + l) + (r + c);
  }

  lemma PartFits(a: Load, b: Load)
    requires Fits(Plus(a, b))
    ensures Fits(a) && Fits(b)
  {
    var both := Plus(a, b);
    forall id
      ensures a.ids[id] <= 1 && b.ids[id] <= 1
    {
      assert both.ids[id] == a.ids[id] + b.ids[id];
    }
  }

  /** The same consumption, and soundness carries over from b to a. */
  ghost predicate NoWorse(a: Load, b: Load) {
    a.nodes == b.nodes && a.bytes == b.bytes && a.ids == b.ids && (b.sound ==> a.sound)
  }

  lemma PlusNoWorse(a: Load, b: Load, a': Load, b': Load)
    requires NoWorse(a, a') && NoWorse(b, b')
    ensures NoWorse(Plus(a, b), Plus(a', b'))
  {
  }

  /** A tree read nearer to the root consumes the same and is at least as sound. */
  lemma {:induction false} ShallowerIsSound(t: Tree, shallow: nat, deep: nat)
    requires shallow <= deep
    ensures NoWorse(Cost(t, shallow), Cost(t, deep))
    decreases t
  {
    AllShallowerAreSound(t.children, shallow + 1, deep + 1);
    PlusNoWorse(Local(t, shallow), CostAll(t.children, shallow + 1),
                Local(t, deep), CostAll(t.children, deep + 1));
  }

  lemma {:induction false} AllShallowerAreSound(trees: seq<Tree>, shallow: nat, deep: nat)
    requires shallow <= deep
    ensures NoWorse(CostAll(trees, shallow), CostAll(trees, deep))
    decreases trees
  {
    if trees != [] {
      var n := |trees| - 1;
      AllShallowerAreSound(trees[..n], shallow, deep);
      ShallowerIsSound(trees[n], shallow, deep);
      PlusNoWorse(CostAll(trees[..n], shallow), Cost(trees[n], shallow),
                  CostAll(trees[..n], deep), Cost(trees[n], deep));
    }
  }

  lemma {:induction false} OneOfAllFits(trees: seq<Tree>, depth: nat, i: nat)
    requires i < |trees| && Fits(CostAll(trees, depth))
    ensures Fits(Cost(trees[i], depth))
    decreases |trees|
  {
    var n := |trees| - 1;
    PartFits(CostAll(trees[..n], depth), Cost(trees[n], depth));
    if i < n {
      OneOfAllFits(trees[..n], depth, i);
    }
  }

  /** If a whole tree fits its budgets, so does every child scanned again from depth zero. */
  lemma ChildFits(t: Tree, i: nat)
    requires i < |t.children| && Fits(Cost(t, 0))
    ensures Fits(Cost(t.children[i], 0))
  {
    PartFits(Local(t, 0), CostAll(t.children, 1));
    OneOfAllFits(t.children, 1, i);
    ShallowerIsSound(t.children[i], 0, 1);
  }

  // ---------------------------------------------------------------- the iterative scan

  /** The waiting trees of the scan, each with its depth. */
  type Stack = seq<(Tree, nat)>

  function StackCost(stack: Stack): (l: Load)
    ensures l.nodes >= |stack|
  {
    if stack == [] then NOTHING
    else Plus(StackCost(stack[..|stack| - 1]), Cost(stack[|stack| - 1].0, stack[|stack| - 1].1))
  }

  /** All children of one node, pushed with the same depth. */
  function AtDepth(trees: seq<Tree>, depth: nat): (s: Stack)
    ensures |s| == |trees|
  {
    seq(|trees|, (i: nat) requires i < |trees| => (trees[i], depth))
  }

  lemma StackPush(stack: Stack, t: Tree, depth: nat)
    ensures StackCost(stack + [(t, depth)]) == Plus(StackCost(stack), Cost(t, depth))
  {
    assert (stack + [(t, depth)])[..|stack|] == stack;
  }

  lemma AtDepthSplits(stack: Stack, trees: seq<Tree>, depth: nat)
    requires trees != []
    ensures var n := |trees| - 1;
      stack + AtDepth(trees, depth) == (stack + AtDepth(trees[..n], depth)) + [(trees[n], depth)]
  {
  }

  lemma {:induction false} PushedCost(stack: Stack, trees: seq<Tree>, depth: nat)
    ensures StackCost(stack + AtDepth(trees, depth)) == Plus(StackCost(stack), CostAll(trees, depth))
    decreases |trees|
  {
    if trees == [] {
      assert CostAll(trees, depth) == NOTHING;
      assert AtDepth(trees, depth) == [];
      assert stack + [] == stack;
      PlusLaws(StackCost(stack), NOTHING, NOTHING);
    } else {
      var n := |trees| - 1;
      var before := stack + AtDepth(trees[..n], depth);
      AtDepthSplits(stack, trees, depth);
      PushedCost(stack, trees[..n], depth);
      StackPush(before, trees[n], depth);
      PlusLaws(StackCost(stack), CostAll(trees[..n], depth), Cost(trees[n], depth));
    }
  }

  /** Popping a node moves its own load to the counters and its children to the stack. */
  lemma PopConserves(spent: Load, rest: Stack, t: Tree, depth: nat)
    ensures Plus(spent, StackCost(rest + [(t, depth)]))
         == Plus(Plus(spent, Local(t, depth)), StackCost(rest + AtDepth(t.children, depth + 1)))
  {
    StackPush(rest, t, depth);
    PushedCost(rest, t.children, depth + 1);
    Shuffle(spent, StackCost(rest), Local(t, depth), CostAll(t.children, depth + 1));
  }

  /** The counters of the scan: nodes, bytes and seen identities, none of them repeated. */
  function Spent(nodes: nat, bytes: nat, seen: set<nat>): Load {
    Load(nodes, bytes, multiset(seen), true)
  }

  lemma SeenTwiceDoesNotFit(spent: Load, local: Load, rest: Load, id: nat)
    requires id in spent.ids && id in local.ids
    ensures !Fits(Plus(Plus(spent, local), rest))
  {
    assert spent.ids[id] >= 1 && local.ids[id] >= 1;
    assert Plus(Plus(spent, local), rest).ids[id] >= 2;
  }

  /** Charges one container for its brackets, children and identity. */
  method ChargeContainer(t: Tree, waiting: nat, nodes: nat, bytes: nat, seen: set<nat>)
    returns (ok: bool, bytes': nat, seen': set<nat>)
    ensures !ok ==>
      || nodes + waiting + |t.children| > MAX_SESSION_NODES
      || bytes + 2 + |t.children| > MAX_SESSION_CONFIG_BYTES
      || (t.id.Some? && t.id.value in seen)
    ensures ok ==>
      && bytes' == bytes + 2 + |t.children|
      && multiset(seen') == multiset(seen) + Ids(t.id)
  {
    bytes', seen' := bytes, seen;
    var count := |t.children|;
    if nodes > MAX_SESSION_NODES || count > MAX_SESSION_NODES - nodes - waiting {
      return false, bytes', seen';
    }
    if bytes + 2 + count > MAX_SESSION_CONFIG_BYTES {
      return false, bytes', seen';
    }
    if t.id.Some? {
      if t.id.value in seen {
        return false, bytes', seen';
      }
      seen' := seen + {t.id.value};
      assert multiset(seen') == multiset(seen) + multiset{t.id.value};
    } else {
      assert multiset(seen') == multiset(seen) + multiset{};
    }
    bytes' := bytes + 2 + count;
    ok := true;
  }

  /** What one node adds to the counters, or a refusal if the node breaks a rule. */
  method Charge(
    t: Tree, depth: nat, waiting: nat, nodes: nat, bytes: nat, seen: set<nat>, ghost rest: Load)
    returns (ok: bool, nodes': nat, bytes': nat, seen': set<nat>)
    requires t.kind.Leaf? ==> t.children == [] && t.id.None?
    requires rest.nodes >= waiting + |t.children|
    ensures var spent, local := Spent(nodes, bytes, seen), Local(t, depth);
      if ok then Spent(nodes', bytes', seen') == Plus(spent, local)
            else !Fits(Plus(Plus(spent, local), rest))
    ensures ok ==> nodes' == nodes + 1 <= MAX_SESSION_NODES && bytes' <= MAX_SESSION_CONFIG_BYTES
  {
    ghost var spent, local := Spent(nodes, bytes, seen), Local(t, depth);
    nodes', bytes', seen' := nodes + 1, bytes, seen;
    ok := DepthIsGood(t.kind, depth) && nodes' <= MAX_SESSION_NODES;
    if !ok {
      return;
    }
    if t.kind.Leaf? {
      ok := KindIsGood(t.kind);
      bytes' := bytes + KindBytes(t.kind, 0);
      assert multiset(seen) + multiset{} == multiset(seen);
    } else {
      ok, bytes', seen' := ChargeContainer(t, waiting, nodes', bytes, seen);
      if !ok {
        if t.id.Some? && t.id.value in seen {
          SeenTwiceDoesNotFit(spent, local, rest, t.id.value);
        }
        return;
      }
      if t.kind.Mapping? {
        ok := GoodKeys(t.kind.keys);
        bytes' := bytes' + KeyBytes(t.kind.keys);
      }
    }
    ok := ok && bytes' <= MAX_SESSION_CONFIG_BYTES;
  }

  /** Scalars have neither children nor a recorded identity. */
  ghost predicate Proper(t: Tree) {
    && (t.kind.Leaf? ==> t.children == [] && t.id.None?)
    && forall i :: 0 <= i < |t.children| ==> Proper(t.children[i])
  }

  lemma {:induction false} ViewIsProper(mode: Mode, v: Value)
    ensures Proper(View(mode, v))
  {
    forall i | 0 <= i < ChildCount(mode, v)
      ensures Proper(View(mode, v).children[i])
    {
      ViewIsProper(mode, Child(mode, v, i));
    }
  }

  /** One turn of the loop: pop a node, charge it, push its children. */
  method Visit(pending: Stack, nodes: nat, bytes: nat, seen: set<nat>, ghost total: Load)
    returns (ok: bool, pending': Stack, nodes': nat, bytes': nat, seen': set<nat>)
    requires pending != [] && forall i :: 0 <= i < |pending| ==> Proper(pending[i].0)
    requires Plus(Spent(nodes, bytes, seen), StackCost(pending)) == total
    ensures if ok then Plus(Spent(nodes', bytes', seen'), StackCost(pending')) == total else !Fits(total)
    ensures ok ==> nodes' == nodes + 1 <= MAX_SESSION_NODES && bytes' <= MAX_SESSION_CONFIG_BYTES
    ensures forall i :: 0 <= i < |pending'| ==> Proper(pending'[i].0)
  {
    var last := |pending| - 1;
    var (item, depth) := pending[last];
    var rest := pending[..last];
    pending' := rest + AtDepth(item.children, depth + 1);
    ghost var charged := Plus(Spent(nodes, bytes, seen), Local(item, depth));
    ghost var below := StackCost(pending');
    PopStack(Spent(nodes, bytes, seen), pending, rest, item, depth, pending');
    ChildrenAreProper(rest, item, depth + 1);
    ok, nodes', bytes', seen' := Charge(item, depth, last, nodes, bytes, seen, below);
  }

  lemma PopStack(spent: Load, stack: Stack, rest: Stack, t: Tree, depth: nat, next: Stack)
    requires stack != [] && rest == stack[..|stack| - 1] && (t, depth) == stack[|stack| - 1]
    requires next == rest + AtDepth(t.children, depth + 1)
    ensures Plus(spent, StackCost(stack)) == Plus(Plus(spent, Local(t, depth)), StackCost(next))
  {
    assert stack == rest + [(t, depth)];
    PopConserves(spent, rest, t, depth);
  }

  lemma ChildrenAreProper(rest: Stack, t: Tree, depth: nat)
    requires Proper(t) && forall i :: 0 <= i < |rest| ==> Proper(rest[i].0)
    ensures var next := rest + AtDepth(t.children, depth);
      forall i :: 0 <= i < |next| ==> Proper(next[i].0)
  {
  }

  /** The scan accepts exactly the trees that fit all budgets. */
  method Scan(t: Tree) returns (ok: bool)
    requires Proper(t)
    ensures ok <==> Fits(Cost(t, 0))
  {
    var pending: Stack := [(t, 0)];
    var nodes, bytes: nat, seen: set<nat> := 0, 0, {};
    ghost var total := Cost(t, 0);
    ScanStarts(t);
    while pending != []
      invariant forall i :: 0 <= i < |pending| ==> Proper(pending[i].0)
      invariant Plus(Spent(nodes, bytes, seen), StackCost(pending)) == total
      invariant nodes <= MAX_SESSION_NODES && bytes <= MAX_SESSION_CONFIG_BYTES
      decreases MAX_SESSION_NODES - nodes
    {
      ok, pending, nodes, bytes, seen := Visit(pending, nodes, bytes, seen, total);
      if !ok {
        return;
      }
    }
    ScanEnds(nodes, bytes, seen, pending);
    ok := true;
  }

  lemma ScanEnds(nodes: nat, bytes: nat, seen: set<nat>, pending: Stack)
    requires pending == [] && nodes <= MAX_SESSION_NODES && bytes <= MAX_SESSION_CONFIG_BYTES
    ensures Fits(Plus(Spent(nodes, bytes, seen), StackCost(pending)))
  {
    PlusLaws(Spent(nodes, bytes, seen), NOTHING, NOTHING);
  }

  lemma ScanStarts(t: Tree)
    ensures Plus(Spent(0, 0, {}), StackCost([(t, 0)])) == Cost(t, 0)
  {
    StackPush([], t, 0);
    assert [] + [(t, 0 as nat)] == [(t, 0)];
    assert Spent(0, 0, {}) == NOTHING;
    PlusLaws(NOTHING, Cost(t, 0), NOTHING);
    PlusLaws(Cost(t, 0), NOTHING, NOTHING);
  }

  // ---------------------------------------------------------------- the recursive rebuild

  /** A rebuilt container: freezing makes tuples and proxies, materializing lists and dicts. */
  function Built(mode: Mode, kind: Kind, id: nat, items: seq<Value>): Value
    requires kind.Mapping? ==> |kind.keys| == |items|
  {
    match kind
    case Sequence => if mode.Freezing? then Tuple(id, items) else List(id, items)
    case Leaf(v) => v
    case Mapping(keys) =>
      var entries := seq(|items|, (i: nat) requires i < |items| =>
        Entry(Str(if keys[i].Some? then keys[i].value else ""), items[i]));
      if mode.Freezing? then Proxy(id, entries) else Dict(id, entries)
  }

  /** The rebuilt value and the next unused identity; every new container gets its own. */
  function Rebuild(mode: Mode, v: Value, next: nat): (r: (Value, nat))
    ensures next <= r.1
    decreases v, 1, 0
  {
    if KindOf(mode, v).Leaf? then (v, next)
    else
      var (items, id) := RebuildTo(mode, v, next, ChildCount(mode, v));
      (Built(mode, KindOf(mode, v), id, items), id + 1)
  }

  function RebuildTo(mode: Mode, v: Value, next: nat, k: nat): (r: (seq<Value>, nat))
    requires k <= ChildCount(mode, v)
    ensures |r.0| == k && next <= r.1
    decreases v, 0, k
  {
    if k == 0 then ([], next)
    else
      var (items, n) := RebuildTo(mode, v, next, k - 1);
      var (item, m) := Rebuild(mode, Child(mode, v, k - 1), n);
      (items + [item], m)
  }

  /**
   * `_freeze_session_data` and `_materialize_exact_builtins`: scan, then rebuild every child by a
   * call that scans it again. A tree that the first scan accepts is never refused further down.
   */
  method Convert(mode: Mode, v: Value, next: nat) returns (r: Option<Value>, next': nat)
    ensures r.Some? <==> Fits(Cost(View(mode, v), 0))
    ensures r.Some? ==> (r.value, next') == Rebuild(mode, v, next)
    decreases v, 1
  {
    ViewIsProper(mode, v);
    var ok := Scan(View(mode, v));
    if !ok {
      return None, next;
    }
    var kind := KindOf(mode, v);
    if kind.Leaf? {
      return Some(v), next;
    }
    var items, id := ConvertChildren(mode, v, next);
    RebuildContainer(mode, v, next, items, id);
    return Some(Built(mode, kind, id, items)), id + 1;
  }

  lemma RebuildContainer(mode: Mode, v: Value, next: nat, items: seq<Value>, id: nat)
    requires !KindOf(mode, v).Leaf?
    requires (items, id) == RebuildTo(mode, v, next, ChildCount(mode, v))
    ensures KindOf(mode, v).Mapping? ==> |KindOf(mode, v).keys| == |items|
    ensures Rebuild(mode, v, next) == (Built(mode, KindOf(mode, v), id, items), id + 1)
  {
  }

  lemma ChildFitsAgain(mode: Mode, v: Value, i: nat)
    requires i < ChildCount(mode, v) && Fits(Cost(View(mode, v), 0))
    ensures Fits(Cost(View(mode, Child(mode, v, i)), 0))
  {
    ChildFits(View(mode, v), i);
  }

  lemma RebuildToNext(
    mode: Mode, v: Value, next: nat, i: nat, items: seq<Value>, n: nat, item: Value, m: nat)
    requires i < ChildCount(mode, v)
    requires (items, n) == RebuildTo(mode, v, next, i)
    requires (item, m) == Rebuild(mode, Child(mode, v, i), n)
    ensures (items + [item], m) == RebuildTo(mode, v, next, i + 1)
  {
  }

  method ConvertChildren(mode: Mode, v: Value, next: nat) returns (items: seq<Value>, next': nat)
    requires Fits(Cost(View(mode, v), 0))
    ensures (items, next') == RebuildTo(mode, v, next, ChildCount(mode, v))
    decreases v, 0
  {
    items, next' := [], next;
    var i := 0;
    while i < ChildCount(mode, v)
      invariant 0 <= i <= ChildCount(mode, v)
      invariant (items, next') == RebuildTo(mode, v, next, i)
    {
      ChildFitsAgain(mode, v, i);
      var item, n := Convert(mode, Child(mode, v, i), next');
      RebuildToNext(mode, v, next, i, items, next', item.value, n);
      items, next', i := items + [item.value], n, i + 1;
    }
  }

  // ---------------------------------------------------------------- round trips

  /** The data of a tree, identities set aside. */
  function Data(t: Tree): (d: Tree)
    ensures d.kind == t.kind && |d.children| == |t.children|
  {
    Node(t.kind, None, seq(|t.children|, (i: nat) requires i < |t.children| => Data(t.children[i])))
  }

  ghost predicate SameBudget(a: Load, b: Load) {
    a.nodes == b.nodes && a.bytes == b.bytes && a.sound == b.sound
  }

  lemma {:induction false} EqualDataEqualBudget(a: Tree, b: Tree, depth: nat)
    requires Data(a) == Data(b)
    ensures SameBudget(Cost(a, depth), Cost(b, depth))
    decreases a
  {
    forall i | 0 <= i < |a.children|
      ensures Data(a.children[i]) == Data(b.children[i])
    {
      assert Data(a).children[i] == Data(b).children[i];
    }
    EqualDataEqualBudgets(a.children, b.children, depth + 1);
  }

  lemma {:induction false} EqualDataEqualBudgets(a: seq<Tree>, b: seq<Tree>, depth: nat)
    requires |a| == |b| && forall i :: 0 <= i < |a| ==> Data(a[i]) == Data(b[i])
    ensures SameBudget(CostAll(a, depth), CostAll(b, depth))
    decreases a
  {
    if a != [] {
      var n := |a| - 1;
      EqualDataEqualBudgets(a[..n], b[..n], depth);
      EqualDataEqualBudget(a[n], b[n], depth);
    }
  }

  /** Everything in the tree is of an allowed kind. */
  ghost predicate Sound(t: Tree) {
    KindIsGood(t.kind) && forall i :: 0 <= i < |t.children| ==> Sound(t.children[i])
  }

  lemma {:induction false} FittingIsSound(t: Tree, depth: nat)
    requires Cost(t, depth).sound
    ensures Sound(t)
    decreases t
  {
    AllFittingAreSound(t.children, depth + 1);
  }

  lemma {:induction false} AllFittingAreSound(trees: seq<Tree>, depth: nat)
    requires CostAll(trees, depth).sound
    ensures forall i :: 0 <= i < |trees| ==> Sound(trees[i])
    decreases trees
  {
    if trees != [] {
      AllFittingAreSound(trees[..|trees| - 1], depth);
      FittingIsSound(trees[|trees| - 1], depth);
    }
  }

  /** Read back by the opposite scan, a rebuilt container is the container it came from. */
  lemma BuiltReadsBack(mode: Mode, v: Value, id: nat, items: seq<Value>)
    requires !KindOf(mode, v).Leaf? && KindIsGood(KindOf(mode, v)) && |items| == ChildCount(mode, v)
    ensures var b := Built(mode, KindOf(mode, v), id, items);
      && KindOf(Opposite(mode), b) == KindOf(mode, v)
      && ChildCount(Opposite(mode), b) == |items|
      && (forall i :: 0 <= i < |items| ==> Child(Opposite(mode), b, i) == items[i])
      && Ids(CheckedId(Opposite(mode), b)) <= multiset{id}
  {
    var b := Built(mode, KindOf(mode, v), id, items);
    assert KindOf(Opposite(mode), b) == KindOf(mode, v);
  }

  lemma {:induction false} RebuildKeepsData(mode: Mode, v: Value, next: nat)
    requires Sound(View(mode, v))
    ensures Data(View(Opposite(mode), Rebuild(mode, v, next).0)) == Data(View(mode, v))
    decreases v, 1, 0
  {
    if !KindOf(mode, v).Leaf? {
      var k := ChildCount(mode, v);
      var (items, id) := RebuildTo(mode, v, next, k);
      var b := Rebuild(mode, v, next).0;
      BuiltReadsBack(mode, v, id, items);
      var a, c := View(Opposite(mode), b), View(mode, v);
      forall i | 0 <= i < k
        ensures Data(a).children[i] == Data(c).children[i]
      {
        assert a.children[i] == View(Opposite(mode), items[i]);
        RebuildKeepsChild(mode, v, next, k, i);
      }
      assert Data(a).children == Data(c).children;
    }
  }

  lemma {:induction false} RebuildKeepsChild(mode: Mode, v: Value, next: nat, k: nat, i: nat)
    requires i < k <= ChildCount(mode, v) && Sound(View(mode, v))
    ensures var item := RebuildTo(mode, v, next, k).0[i];
      Data(View(Opposite(mode), item)) == Data(View(mode, Child(mode, v, i)))
    decreases v, 0, k
  {
    var (before, n) := RebuildTo(mode, v, next, k - 1);
    var child := Child(mode, v, k - 1);
    assert RebuildTo(mode, v, next, k).0 == before + [Rebuild(mode, child, n).0];
    if i < k - 1 {
      RebuildKeepsChild(mode, v, next, k - 1, i);
    } else {
      assert View(mode, v).children[i] == View(mode, child);
      RebuildKeepsData(mode, child, n);
    }
  }

  /** Every identity occurs at most once, and only between the two bounds. */
  ghost predicate FreshBetween(ids: multiset<nat>, low: nat, high: nat) {
    forall id :: ids[id] <= if low <= id < high then 1 else 0
  }

  lemma {:induction false} RebuildIsFresh(mode: Mode, v: Value, next: nat, depth: nat)
    requires Sound(View(mode, v))
    ensures var (r, end) := Rebuild(mode, v, next);
      FreshBetween(Cost(View(Opposite(mode), r), depth).ids, next, end)
    decreases v, 1, 0
  {
    var (r, end) := Rebuild(mode, v, next);
    var t := View(Opposite(mode), r);
    if KindOf(mode, v).Leaf? {
      assert t.children == [];
      assert CostAll(t.children, depth + 1) == NOTHING;
    } else {
      var k := ChildCount(mode, v);
      var (items, id) := RebuildTo(mode, v, next, k);
      BuiltReadsBack(mode, v, id, items);
      assert t.children == ViewsOf(Opposite(mode), items);
      RebuildToIsFresh(mode, v, next, depth + 1, k);
      FreshJoin(CostAll(t.children, depth + 1).ids, Ids(t.id), next, id);
      var a, b := Local(t, depth), CostAll(t.children, depth + 1);
      assert Cost(t, depth).ids == a.ids + b.ids;
      assert a.ids + b.ids == b.ids + a.ids;
    }
  }

  ghost function ViewsOf(mode: Mode, items: seq<Value>): (s: seq<Tree>)
    ensures |s| == |items|
  {
    seq(|items|, (i: nat) requires i < |items| => View(mode, items[i]))
  }

  lemma FreshJoin(below: multiset<nat>, own: multiset<nat>, low: nat, id: nat)
    requires FreshBetween(below, low, id) && own <= multiset{id} && low <= id
    ensures FreshBetween(below + own, low, id + 1)
  {
  }

  lemma FreshUnion(a: multiset<nat>, b: multiset<nat>, low: nat, mid: nat, high: nat)
    requires low <= mid <= high && FreshBetween(a, low, mid) && FreshBetween(b, mid, high)
    ensures FreshBetween(a + b, low, high)
  {
  }

  lemma {:induction false} RebuildToIsFresh(mode: Mode, v: Value, next: nat, depth: nat, k: nat)
    requires k <= ChildCount(mode, v) && Sound(View(mode, v))
    ensures var (items, end) := RebuildTo(mode, v, next, k);
      FreshBetween(CostAll(ViewsOf(Opposite(mode), items), depth).ids, next, end)
    decreases v, 0, k
  {
    var (items, end) := RebuildTo(mode, v, next, k);
    var views := ViewsOf(Opposite(mode), items);
    if k == 0 {
      assert CostAll(views, depth) == NOTHING;
    } else {
      var (before, mid) := RebuildTo(mode, v, next, k - 1);
      assert Sound(View(mode, v).children[k - 1]);
      RebuildToIsFresh(mode, v, next, depth, k - 1);
      RebuildIsFresh(mode, Child(mode, v, k - 1), mid, depth);
      assert views[..k - 1] == ViewsOf(Opposite(mode), before);
      FreshUnion(CostAll(views[..k - 1], depth).ids, Cost(views[k - 1], depth).ids, next, mid, end);
    }
  }

  /** What one scan accepts, the opposite scan accepts in rebuilt form, with the same data. */
  lemma RebuiltFits(mode: Mode, v: Value, next: nat)
    requires Fits(Cost(View(mode, v), 0))
    ensures var r := View(Opposite(mode), Rebuild(mode, v, next).0);
      Fits(Cost(r, 0)) && Data(r) == Data(View(mode, v))
  {
    var (r, end) := Rebuild(mode, v, next);
    FittingIsSound(View(mode, v), 0);
    RebuildKeepsData(mode, v, next);
    EqualDataEqualBudget(View(Opposite(mode), r), View(mode, v), 0);
    RebuildIsFresh(mode, v, next, 0);
    assert forall id :: Cost(View(Opposite(mode), r), 0).ids[id] <= 1;
  }

  /** A value of dicts, lists and scalars, as materializing makes them. */
  predicate Plain(v: Value) {
    match v
    case List(_, items) => forall i :: 0 <= i < |items| ==> Plain(items[i])
    case Dict(_, entries) =>
      forall i :: 0 <= i < |entries| ==> entries[i].key.Str? && Plain(entries[i].value)
    case Tuple(_, _) => false
    case Proxy(_, _) => false
    case Other => false
    case _ => true
  }

  /** Python equality of plain values: the same tree, whatever the identities. */
  predicate Equal(a: Value, b: Value)
    decreases a
  {
    match (a, b)
    case (List(_, x), List(_, y)) =>
      |x| == |y| && forall i :: 0 <= i < |x| ==> Equal(x[i], y[i])
    case (Dict(_, x), Dict(_, y)) =>
      |x| == |y| && forall i :: 0 <= i < |x| ==> x[i].key == y[i].key && Equal(x[i].value, y[i].value)
    case _ => a == b
  }

  lemma {:induction false} MaterializedIsPlain(v: Value, next: nat)
    requires Sound(View(Materializing, v))
    ensures Plain(Rebuild(Materializing, v, next).0)
    decreases v, 1, 0
  {
    var kind := KindOf(Materializing, v);
    if kind.Leaf? {
      assert Plain(v);
    } else {
      var (items, id) := RebuildTo(Materializing, v, next, ChildCount(Materializing, v));
      forall i | 0 <= i < |items|
        ensures Plain(items[i])
      {
        MaterializedChildIsPlain(v, next, ChildCount(Materializing, v), i);
      }
      BuiltIsPlain(kind, id, items);
    }
  }

  lemma BuiltIsPlain(kind: Kind, id: nat, items: seq<Value>)
    requires !kind.Leaf? && (kind.Mapping? ==> |kind.keys| == |items|)
    requires forall i :: 0 <= i < |items| ==> Plain(items[i])
    ensures Plain(Built(Materializing, kind, id, items))
  {
  }

  lemma {:induction false} MaterializedChildIsPlain(v: Value, next: nat, k: nat, i: nat)
    requires i < k <= ChildCount(Materializing, v) && Sound(View(Materializing, v))
    ensures Plain(RebuildTo(Materializing, v, next, k).0[i])
    decreases v, 0, k
  {
    var (before, n) := RebuildTo(Materializing, v, next, k - 1);
    var child := Child(Materializing, v, k - 1);
    assert RebuildTo(Materializing, v, next, k).0 == before + [Rebuild(Materializing, child, n).0];
    if i < k - 1 {
      MaterializedChildIsPlain(v, next, k - 1, i);
    } else {
      assert View(Materializing, v).children[i] == View(Materializing, child);
      MaterializedIsPlain(child, n);
    }
  }

  /** Plain values with the same data are equal. */
  lemma {:induction false} SameDataIsEqual(a: Value, b: Value)
    requires Plain(a) && Plain(b)
    requires Data(View(Freezing, a)) == Data(View(Freezing, b))
    ensures Equal(a, b)
    decreases a
  {
    var x, y := View(Freezing, a), View(Freezing, b);
    assert KindOf(Freezing, a) == KindOf(Freezing, b);
    forall i | 0 <= i < |x.children|
      ensures Data(View(Freezing, Child(Freezing, a, i))) == Data(View(Freezing, Child(Freezing, b, i)))
    {
      assert Data(x).children[i] == Data(y).children[i];
    }
    if a.List? {
      assert b.List?;
      forall i | 0 <= i < |a.items|
        ensures Equal(a.items[i], b.items[i])
      {
        assert Child(Freezing, a, i) == a.items[i] && Child(Freezing, b, i) == b.items[i];
        SameDataIsEqual(a.items[i], b.items[i]);
      }
    } else if a.Dict? {
      assert b.Dict?;
      forall i | 0 <= i < |a.entries|
        ensures a.entries[i].key == b.entries[i].key && Equal(a.entries[i].value, b.entries[i].value)
      {
        assert KeyAt(Freezing, a, i) == KindOf(Freezing, a).keys[i] == KeyAt(Freezing, b, i);
        assert Child(Freezing, a, i) == a.entries[i].value && Child(Freezing, b, i) == b.entries[i].value;
        SameDataIsEqual(a.entries[i].value, b.entries[i].value);
      }
    }
  }

  /** Freezing what the scan accepts and materializing it again succeeds and gives the data back. */
  lemma FreezeMaterializeRoundTrip(v: Value, next: nat, later: nat)
    requires Fits(Cost(View(Freezing, v), 0))
    ensures var frozen := Rebuild(Freezing, v, next).0; var back := Rebuild(Materializing, frozen, later).0;
      && Fits(Cost(View(Materializing, frozen), 0))
      && Plain(back)
      && Data(View(Freezing, back)) == Data(View(Freezing, v))
      && (Plain(v) ==> Equal(back, v))
  {
    var frozen := Rebuild(Freezing, v, next).0;
    var back := Rebuild(Materializing, frozen, later).0;
    RebuiltFits(Freezing, v, next);
    RebuiltFits(Materializing, frozen, later);
    FittingIsSound(View(Materializing, frozen), 0);
    MaterializedIsPlain(frozen, later);
    if Plain(v) {
      SameDataIsEqual(back, v);
    }
  }

  // ---------------------------------------------------------------- admission

  /** `_admit_session_config` with the relation checks as a predicate of the frozen data. */
  method Admit(data: Value, relations: Tree -> bool, next: nat) returns (r: Option<Value>, next': nat)
    ensures r.Some? <==> Admissible(data, relations, next)
    ensures r.Some? ==> (r.value, next') == Admitted(data, next)
  {
    next' := next;
    if !data.Proxy? {
      return None, next';
    }
    var materialized, frozen;
    materialized, next' := Convert(Materializing, data, next');
    if materialized.None? {
      return None, next';
    }
    frozen, next' := Convert(Freezing, materialized.value, next');
    if frozen.None? || !relations(Data(View(Materializing, frozen.value))) {
      return None, next';
    }
    r := frozen;
  }

  function Admitted(data: Value, next: nat): (Value, nat) {
    var (materialized, n) := Rebuild(Materializing, data, next);
    Rebuild(Freezing, materialized, n)
  }

  predicate Admissible(data: Value, relations: Tree -> bool, next: nat) {
    && data.Proxy?
    && Fits(Cost(View(Materializing, data), 0))
    && Fits(Cost(View(Freezing, Rebuild(Materializing, data, next).0), 0))
    && relations(Data(View(Materializing, Admitted(data, next).0)))
  }

  /** Only the type, the budgets and the relations decide; the middle scan cannot refuse. */
  lemma AdmissionIsOneScan(data: Value, relations: Tree -> bool, next: nat)
    ensures Admissible(data, relations, next) <==>
      && data.Proxy?
      && Fits(Cost(View(Materializing, data), 0))
      && relations(Data(View(Materializing, data)))
  {
    if data.Proxy? && Fits(Cost(View(Materializing, data), 0)) {
      var (materialized, n) := Rebuild(Materializing, data, next);
      RebuiltFits(Materializing, data, next);
      RebuiltFits(Freezing, materialized, n);
    }
  }

  /** Admitting an admitted configuration succeeds, and with equal data. */
  lemma AdmissionIsIdempotent(data: Value, relations: Tree -> bool, next: nat, later: nat)
    requires Admissible(data, relations, next)
    ensures var admitted := Admitted(data, next).0;
      && Admissible(admitted, relations, later)
      && Data(View(Materializing, Admitted(admitted, later).0)) == Data(View(Materializing, admitted))
      && Data(View(Materializing, admitted)) == Data(View(Materializing, data))
  {
    var (materialized, n) := Rebuild(Materializing, data, next);
    var (admitted, _) := Rebuild(Freezing, materialized, n);
    RebuiltFits(Materializing, data, next);
    RebuiltFits(Freezing, materialized, n);
    assert KindOf(Materializing, data).Mapping?;
    assert KindOf(Freezing, materialized).Mapping?;
    assert admitted.Proxy?;
    AdmissionIsOneScan(admitted, relations, later);
    var (again, m) := Rebuild(Materializing, admitted, later);
    RebuiltFits(Materializing, admitted, later);
    RebuiltFits(Freezing, again, m);
  }

  /** Admission as a function: the frozen data of an admissible configuration. */
  function Admission(data: Value, relations: Tree -> bool): Option<Value> {
    if Admissible(data, relations, 0) then Some(Admitted(data, 0).0) else None
  }

  lemma AdmittedIsAdmittedAgain(data: Value, relations: Tree -> bool)
    requires Admission(data, relations).Some?
    ensures Admission(Admission(data, relations).value, relations).Some?
  {
    AdmissionIsIdempotent(data, relations, 0, 0);
  }
}
