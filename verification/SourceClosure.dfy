/** The worklist that collects a session script and everything it imports. */
module SourceClosure {
  import opened Results

  /** A file of the workspace: it cannot be read, cannot be accepted as source, or imports files that may be missing. */
  datatype File = Unreadable | Rejected | Source(imports: seq<Option<nat>>)

  type Workspace = seq<File>

  predicate WellFormed(files: Workspace) {
    forall f, k :: 0 <= f < |files| && files[f].Source? && 0 <= k < |files[f].imports| && files[f].imports[k].Some? ==>
      files[f].imports[k].value < |files|
  }

  /** The file is source and every import of it is found. */
  predicate Sound(files: Workspace, f: nat) {
    f < |files| && files[f].Source? && None !in files[f].imports
  }

  predicate Imports(files: Workspace, a: nat, b: nat) {
    a < |files| && files[a].Source? && Some(b) in files[a].imports
  }

  /** A chain of imports. */
  ghost predicate Chain(files: Workspace, p: seq<nat>) {
    forall i, j :: 0 <= i < j < |p| && j == i + 1 ==> Imports(files, p[i], p[j])
  }

  ghost predicate Reaches(files: Workspace, entry: nat, f: nat) {
    exists p :: |p| > 0 && p[0] == entry && p[|p| - 1] == f && Chain(files, p)
  }

  lemma EntryReachesItself(files: Workspace, entry: nat)
    ensures Reaches(files, entry, entry)
  {
    var p := [entry];
    assert Chain(files, p) && p[0] == entry && p[|p| - 1] == entry;
  }

  lemma ReachesFurther(files: Workspace, entry: nat, a: nat, b: nat)
    requires Reaches(files, entry, a) && Imports(files, a, b)
    ensures Reaches(files, entry, b)
  {
    var p :| |p| > 0 && p[0] == entry && p[|p| - 1] == a && Chain(files, p);
    var q := p + [b];
    assert Chain(files, q) && q[0] == entry && q[|q| - 1] == b;
  }

  /** Whatever holds of the entry and passes along imports holds of every reached file. */
  lemma {:induction false} ClosedSetsHoldTheReached(files: Workspace, p: seq<nat>, closed: set<nat>)
    requires |p| > 0 && Chain(files, p) && p[0] in closed
    requires forall a, b :: a in closed && Imports(files, a, b) ==> b in closed
    ensures p[|p| - 1] in closed
    decreases |p|
  {
    if |p| > 1 {
      assert Imports(files, p[0], p[1]);
      var rest := p[1..];
      forall i, j | 0 <= i < j < |rest| && j == i + 1
        ensures Imports(files, rest[i], rest[j])
      {
        assert rest[i] == p[i + 1] && rest[j] == p[j + 1];
      }
      ClosedSetsHoldTheReached(files, rest, closed);
    }
  }

  /** The reached files and exactly their import edges. */
  ghost predicate IsClosure(files: Workspace, entry: nat, visited: set<nat>, edges: set<(nat, nat)>) {
    && (forall f :: f in visited <==> Reaches(files, entry, f))
    && (forall a: nat, b: nat :: (a, b) in edges <==> a in visited && Imports(files, a, b))
  }

  /** The closure does not depend on how it was found. */
  lemma ClosureIsUnique(
    files: Workspace, entry: nat, v: set<nat>, e: set<(nat, nat)>, w: set<nat>, d: set<(nat, nat)>)
    requires IsClosure(files, entry, v, e) && IsClosure(files, entry, w, d)
    ensures v == w && e == d
  {
    assert forall f :: f in v <==> f in w;
    forall x: (nat, nat)
      ensures x in e <==> x in d
    {
      assert x == (x.0, x.1);
    }
  }

  /** Everything found is reached, and everything imported by what is visited is visited or pending. */
  ghost predicate Working(
    files: Workspace, entry: nat, pending: seq<nat>, visited: set<nat>, edges: set<(nat, nat)>)
  {
    && (forall f :: f in visited ==> Sound(files, f) && Reaches(files, entry, f))
    && (forall k :: 0 <= k < |pending| ==> pending[k] < |files| && Reaches(files, entry, pending[k]))
    && (entry in visited || entry in pending)
    && (forall a, b :: a in visited && Imports(files, a, b) ==> b in visited || b in pending)
    && (forall a: nat, b: nat :: (a, b) in edges <==> a in visited && Imports(files, a, b))
  }

  lemma FinishedIsClosure(files: Workspace, entry: nat, visited: set<nat>, edges: set<(nat, nat)>)
    requires Working(files, entry, [], visited, edges)
    ensures IsClosure(files, entry, visited, edges)
    ensures forall f :: Reaches(files, entry, f) ==> Sound(files, f)
  {
    forall f | Reaches(files, entry, f)
      ensures f in visited
    {
      var p :| |p| > 0 && p[0] == entry && p[|p| - 1] == f && Chain(files, p);
      ClosedSetsHoldTheReached(files, p, visited);
    }
  }

  /** The imports of one file: the files not visited yet, and the edges, unless one is not found. */
  method Follow(files: Workspace, f: nat, visited: set<nat>)
    returns (found: Option<(seq<nat>, set<(nat, nat)>)>)
    requires WellFormed(files) && f < |files| && files[f].Source?
    ensures found.Some? <==> Sound(files, f)
    ensures found.Some? ==>
      && (forall k :: 0 <= k < |found.value.0| ==> found.value.0[k] < |files| && Imports(files, f, found.value.0[k]))
      && (forall b :: Imports(files, f, b) ==> b in visited || b in found.value.0)
      && (forall a: nat, b: nat :: (a, b) in found.value.1 <==> a == f && Imports(files, f, b))
  {
    var imports := files[f].imports;
    var more: seq<nat>, edges: set<(nat, nat)> := [], {};
    for k := 0 to |imports|
      invariant None !in imports[..k]
      invariant forall j :: 0 <= j < |more| ==> more[j] < |files| && Some(more[j]) in imports[..k]
      invariant forall b :: Some(b) in imports[..k] ==> b in visited || b in more
      invariant forall a: nat, b: nat :: (a, b) in edges <==> a == f && Some(b) in imports[..k]
    {
      assert imports[..k + 1] == imports[..k] + [imports[k]];
      if imports[k].None? {
        assert None in imports;
        return None;
      }
      edges := edges + {(f, imports[k].value)};
      if imports[k].value !in visited {
        more := more + [imports[k].value];
      }
    }
    assert imports[..|imports|] == imports;
    found := Some((more, edges));
  }

  lemma WorkingNext(
    files: Workspace, entry: nat, pending: seq<nat>, visited: set<nat>, edges: set<(nat, nat)>,
    f: nat, more: seq<nat>, new': set<(nat, nat)>)
    requires Working(files, entry, pending + [f], visited, edges) && f !in visited && Sound(files, f)
    requires forall k :: 0 <= k < |more| ==> more[k] < |files| && Imports(files, f, more[k])
    requires forall b :: Imports(files, f, b) ==> b in visited + {f} || b in more
    requires forall a: nat, b: nat :: (a, b) in new' <==> a == f && Imports(files, f, b)
    ensures Working(files, entry, pending + more, visited + {f}, edges + new')
  {
    assert (pending + [f])[|pending|] == f;
    forall k | 0 <= k < |pending + more|
      ensures (pending + more)[k] < |files| && Reaches(files, entry, (pending + more)[k])
    {
      if k < |pending| {
        assert (pending + [f])[k] == pending[k];
      } else {
        ReachesFurther(files, entry, f, more[k - |pending|]);
      }
    }
    assert forall b :: b in pending + [f] <==> b in pending || b == f;
    assert forall b :: b in pending + more <==> b in pending || b in more;
  }

  /** `build_session_source_closure`: None stands for its errors. */
  method BuildSessionSourceClosure(files: Workspace, entry: nat) returns (r: Option<(set<nat>, set<(nat, nat)>)>)
    requires WellFormed(files) && entry < |files|
    ensures r.Some? <==> forall f :: Reaches(files, entry, f) ==> Sound(files, f)
    ensures r.Some? ==> IsClosure(files, entry, r.value.0, r.value.1)
  {
    var pending, visited: set<nat>, edges: set<(nat, nat)> := [entry], {}, {};
    ghost var all := Below(|files|);
    EntryReachesItself(files, entry);
    while pending != []
      invariant Working(files, entry, pending, visited, edges) && visited <= all
      decreases |all - visited|, |pending|
    {
      var f, rest := pending[|pending| - 1], pending[..|pending| - 1];
      assert pending == rest + [f];
      if files[f].Unreadable? {
        assert !Sound(files, f);
        return None;
      }
      if f in visited {
        assert forall b :: b in pending <==> b in rest || b == f;
        pending := rest;
        continue;
      }
      if files[f].Rejected? {
        assert !Sound(files, f);
        return None;
      }
      var found := Follow(files, f, visited + {f});
      if found.None? {
        return None;
      }
      WorkingNext(files, entry, rest, visited, edges, f, found.value.0, found.value.1);
      assert all - (visited + {f}) < all - visited;
      SmallerSet(all - (visited + {f}), all - visited);
      pending, visited, edges := rest + found.value.0, visited + {f}, edges + found.value.1;
    }
    FinishedIsClosure(files, entry, visited, edges);
    r := Some((visited, edges));
  }

  ghost function Below(n: nat): (s: set<nat>)
    ensures forall f: nat :: f in s <==> f < n
  {
    if n == 0 then {} else Below(n - 1) + {n - 1 as nat}
  }

  lemma SmallerSet(a: set<nat>, b: set<nat>)
    requires a < b
    ensures |a| < |b|
  {
    assert b == a + (b - a);
  }
}
