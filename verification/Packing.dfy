/**
 Greedy packing of weighted atoms into chunks that overlap: each chunk repeats the tail of
 the one before it. Generic in the atom, so the size theorems speak of weights alone.
 */
module Packing {

  function Sum<T>(atoms: seq<T>, weight: T -> nat): nat {
    if atoms == [] then 0 else Sum(atoms[..|atoms| - 1], weight) + weight(atoms[|atoms| - 1])
  }

  /** How far back from `n` the carry reaches: until the next atom would exceed the overlap, but at least one. */
  function TailStart<T>(chunk: seq<T>, n: nat, weight: T -> nat, overlap: int): (k: nat)
    requires n <= |chunk|
    ensures k <= n && (n == |chunk| > 0 ==> k < n)
    decreases n
  {
    if n == 0 || (Sum(chunk[n..], weight) + weight(chunk[n - 1]) > overlap && n < |chunk|) then n
    else TailStart(chunk, n - 1, weight, overlap)
  }

  /** The atoms of a chunk the next chunk repeats; never the whole chunk. */
  function Tail<T>(chunk: seq<T>, weight: T -> nat, overlap: int): seq<T> {
    if overlap <= 0 then []
    else
      var k := TailStart(chunk, |chunk|, weight, overlap);
      if k == 0 then [] else chunk[k..]
  }

  function Pack<T>(atoms: seq<T>, current: seq<T>, weight: T -> nat, target: int, overlap: int): seq<seq<T>>
    decreases |atoms|
  {
    if atoms == [] then (if current == [] then [] else [current])
    else if current != [] && Sum(current, weight) + weight(atoms[0]) > target then
      [current] + Pack(atoms[1..], Tail(current, weight, overlap) + [atoms[0]], weight, target, overlap)
    else
      Pack(atoms[1..], current + [atoms[0]], weight, target, overlap)
  }

  /** The chunks of an atom list, as lists of atoms. */
  function Groups<T>(atoms: seq<T>, weight: T -> nat, target: int, overlap: int): seq<seq<T>> {
    Pack(atoms, [], weight, target, overlap)
  }

  // --------------------------------------------------------------------- the carry

  lemma {:induction false} SumAppend<T>(a: seq<T>, b: seq<T>, weight: T -> nat)
    ensures Sum(a + b, weight) == Sum(a, weight) + Sum(b, weight)
  {
    if b == [] {
      assert a + b == a;
    } else {
      SumAppend(a, b[..|b| - 1], weight);
      assert (a + b)[..|a + b| - 1] == a + b[..|b| - 1];
    }
  }

  lemma SumCons<T>(a: T, b: seq<T>, weight: T -> nat)
    ensures Sum([a] + b, weight) == weight(a) + Sum(b, weight)
  {
    SumAppend([a], b, weight);
    assert Sum([a], weight) == Sum([a][..0], weight) + weight(a);
  }

  ghost predicate IsSuffix<T>(s: seq<T>, xs: seq<T>) {
    |s| <= |xs| && s == xs[|xs| - |s|..]
  }

  lemma SumFrom<T>(xs: seq<T>, n: nat, weight: T -> nat)
    requires 0 < n <= |xs|
    ensures Sum(xs[n - 1..], weight) == weight(xs[n - 1]) + Sum(xs[n..], weight)
  {
    assert xs[n - 1..] == [xs[n - 1]] + xs[n..];
    SumCons(xs[n - 1], xs[n..], weight);
  }

  /** The scan keeps the carry bounded. */
  lemma {:induction false} TailStartBound<T>(chunk: seq<T>, n: nat, weight: T -> nat, overlap: int)
    requires n <= |chunk| && CarryBound(chunk[n..], weight, overlap)
    ensures CarryBound(chunk[TailStart(chunk, n, weight, overlap)..], weight, overlap)
    decreases n
  {
    if n > 0 && !(Sum(chunk[n..], weight) + weight(chunk[n - 1]) > overlap && n < |chunk|) {
      SumFrom(chunk, n, weight);
      TailStartBound(chunk, n - 1, weight, overlap);
    }
  }

  /** Stopping before the start means the next atom no longer fits. */
  lemma {:induction false} TailStartStops<T>(chunk: seq<T>, n: nat, weight: T -> nat, overlap: int)
    requires n <= |chunk|
    ensures var k := TailStart(chunk, n, weight, overlap);
            0 < k < |chunk| ==> Sum(chunk[k - 1..], weight) > overlap
    decreases n
  {
    if n > 0 {
      SumFrom(chunk, n, weight);
      if !(Sum(chunk[n..], weight) + weight(chunk[n - 1]) > overlap && n < |chunk|) {
        TailStartStops(chunk, n - 1, weight, overlap);
      }
    }
  }

  lemma SumOfSuffix<T>(xs: seq<T>, cut: nat, weight: T -> nat)
    requires cut <= |xs|
    ensures Sum(xs[cut..], weight) <= Sum(xs, weight)
  {
    SumAppend(xs[..cut], xs[cut..], weight);
    assert xs == xs[..cut] + xs[cut..];
  }

  /**
   The carry is a proper suffix of the chunk, weighs at most the overlap unless it is a
   single atom, and could not have been one atom longer.
   */
  lemma TailExact<T>(chunk: seq<T>, weight: T -> nat, overlap: int)
    requires chunk != []
    ensures var r := Tail(chunk, weight, overlap);
            && IsSuffix(r, chunk) && |r| < |chunk| && CarryBound(r, weight, overlap)
            && (r != [] ==> Sum(chunk[|chunk| - |r| - 1..], weight) > overlap)
            && (r == [] <==> overlap <= 0 || Sum(chunk, weight) <= overlap || |chunk| == 1)
  {
    var k := TailStart(chunk, |chunk|, weight, overlap);
    assert chunk[|chunk|..] == [];
    TailStartBound(chunk, |chunk|, weight, overlap);
    TailStartStops(chunk, |chunk|, weight, overlap);
    assert chunk[0..] == chunk;
    if k > 0 { SumOfSuffix(chunk, k - 1, weight); }
  }

  // ------------------------------------------------------------------- losslessness

  /** Drop `k` repeated atoms from the first chunk, then each chunk's carry from the next. */
  function Unpack<T>(k: nat, groups: seq<seq<T>>, weight: T -> nat, overlap: int): seq<T>
    decreases |groups|
  {
    if groups == [] then []
    else
      var fresh_ := if k <= |groups[0]| then groups[0][k..] else [];
      fresh_ + Unpack(|Tail(groups[0], weight, overlap)|, groups[1..], weight, overlap)
  }

  /** Each chunk starts with the carry of its predecessor and adds at least one atom to it. */
  ghost predicate Chained<T>(carry: seq<T>, groups: seq<seq<T>>, weight: T -> nat, overlap: int)
    decreases |groups|
  {
    groups == [] || (carry < groups[0] && Chained(Tail(groups[0], weight, overlap), groups[1..], weight, overlap))
  }

  lemma UnpackCons<T>(k: nat, g: seq<T>, more: seq<seq<T>>, weight: T -> nat, overlap: int)
    requires k <= |g|
    ensures Unpack(k, [g] + more, weight, overlap) == g[k..] + Unpack(|Tail(g, weight, overlap)|, more, weight, overlap)
  {
    assert ([g] + more)[1..] == more;
  }

  /** What is new in a chunk, with the next atoms behind it. */
  lemma NewAtoms<T>(carry: seq<T>, chunk: seq<T>, a: T, rest: seq<T>)
    requires carry <= chunk
    ensures (chunk + [a])[|carry|..] + rest == chunk[|carry|..] + ([a] + rest)
  {
  }

  lemma {:induction false} PackLossless<T>(atoms: seq<T>, current: seq<T>, carry: seq<T>,
                                           weight: T -> nat, target: int, overlap: int)
    requires carry <= current && (carry < current || current == [])
    ensures var g := Pack(atoms, current, weight, target, overlap);
            && Chained(carry, g, weight, overlap)
            && Unpack(|carry|, g, weight, overlap) == current[|carry|..] + atoms
    decreases |atoms|
  {
    if atoms == [] {
      if current != [] {
        UnpackCons(|carry|, current, [], weight, overlap);
        assert [current] + [] == [current];
        assert [current][1..] == [];
      }
    } else {
      var a, rest := atoms[0], atoms[1..];
      assert atoms == [a] + rest;
      if current != [] && Sum(current, weight) + weight(a) > target {
        var tail := Tail(current, weight, overlap);
        var more := Pack(rest, tail + [a], weight, target, overlap);
        TailExact(current, weight, overlap);
        PackLossless(rest, tail + [a], tail, weight, target, overlap);
        NewAtoms(tail, tail, a, rest);
        UnpackCons(|carry|, current, more, weight, overlap);
        assert ([current] + more)[1..] == more;
      } else {
        PackLossless(rest, current + [a], carry, weight, target, overlap);
        NewAtoms(carry, current, a, rest);
      }
    }
  }

  /** Dropping from every chunk what it repeats gives back the atoms, once each and in order. */
  lemma GroupsLossless<T>(atoms: seq<T>, weight: T -> nat, target: int, overlap: int)
    ensures var g := Groups(atoms, weight, target, overlap);
            Chained([], g, weight, overlap) && Unpack(0, g, weight, overlap) == atoms
  {
    PackLossless(atoms, [], [], weight, target, overlap);
    assert [][0..] + atoms == atoms;
  }

  // --------------------------------------------------------------------- chunk size

  ghost predicate CarryBound<T>(carry: seq<T>, weight: T -> nat, overlap: int) {
    carry == [] || Sum(carry, weight) <= overlap || |carry| == 1
  }

  /** Within target, or the given carry and exactly one more atom. */
  predicate WithinOrOneMore<T(==)>(chunk: seq<T>, carry: seq<T>, weight: T -> nat, target: int) {
    Sum(chunk, weight) <= target || (carry < chunk && |chunk| == |carry| + 1)
  }

  /** The same of every chunk, with the carry of its predecessor. */
  ghost predicate BoundedChain<T>(carry: seq<T>, groups: seq<seq<T>>, weight: T -> nat, target: int, overlap: int)
    decreases |groups|
  {
    groups == [] ||
    (groups[0] != [] && WithinOrOneMore(groups[0], carry, weight, target)
     && BoundedChain(Tail(groups[0], weight, overlap), groups[1..], weight, target, overlap))
  }

  lemma BoundedCons<T>(carry: seq<T>, g: seq<T>, more: seq<seq<T>>, weight: T -> nat, target: int, overlap: int)
    requires g != [] && WithinOrOneMore(g, carry, weight, target)
    requires BoundedChain(Tail(g, weight, overlap), more, weight, target, overlap)
    ensures BoundedChain(carry, [g] + more, weight, target, overlap)
  {
    assert ([g] + more)[1..] == more;
  }

  lemma {:induction false} PackBound<T>(atoms: seq<T>, current: seq<T>, carry: seq<T>, weight: T -> nat, target: int, overlap: int)
    requires if current == [] then carry == [] else WithinOrOneMore(current, carry, weight, target)
    ensures BoundedChain(carry, Pack(atoms, current, weight, target, overlap), weight, target, overlap)
    decreases |atoms|
  {
    if atoms == [] {
      if current != [] {
        BoundedCons(carry, current, [], weight, target, overlap);
        assert [current] + [] == [current];
      }
    } else {
      var a, rest := atoms[0], atoms[1..];
      if current != [] && Sum(current, weight) + weight(a) > target {
        var tail := Tail(current, weight, overlap);
        PackBound(rest, tail + [a], tail, weight, target, overlap);
        BoundedCons(carry, current, Pack(rest, tail + [a], weight, target, overlap), weight, target, overlap);
      } else {
        SumSnoc(current, a, weight);
        PackBound(rest, current + [a], carry, weight, target, overlap);
      }
    }
  }

  lemma SumSnoc<T>(current: seq<T>, a: T, weight: T -> nat)
    ensures Sum(current + [a], weight) == Sum(current, weight) + weight(a)
  {
    assert (current + [a])[..|current|] == current;
  }

  /** What chunk `i` repeats of its predecessor. */
  function CarryInto<T>(groups: seq<seq<T>>, i: nat, weight: T -> nat, overlap: int): seq<T>
    requires i < |groups|
  {
    if i == 0 then [] else Tail(groups[i - 1], weight, overlap)
  }

  lemma {:induction false} BoundedAt<T>(carry: seq<T>, groups: seq<seq<T>>, i: nat, weight: T -> nat, target: int, overlap: int)
    requires BoundedChain(carry, groups, weight, target, overlap) && i < |groups|
    ensures groups[i] != []
    ensures WithinOrOneMore(groups[i], if i == 0 then carry else CarryInto(groups, i, weight, overlap), weight, target)
    decreases i
  {
    if i > 0 { BoundedAt(Tail(groups[0], weight, overlap), groups[1..], i - 1, weight, target, overlap); }
  }

  /** Every chunk is within target, or is the bounded carry of its predecessor plus exactly one new atom. */
  lemma GroupsBound<T>(atoms: seq<T>, weight: T -> nat, target: int, overlap: int, i: nat)
    requires i < |Groups(atoms, weight, target, overlap)|
    ensures var groups := Groups(atoms, weight, target, overlap);
            var carry := CarryInto(groups, i, weight, overlap);
            && groups[i] != []
            && WithinOrOneMore(groups[i], carry, weight, target)
            && CarryBound(carry, weight, overlap)
  {
    var groups := Groups(atoms, weight, target, overlap);
    PackBound(atoms, [], [], weight, target, overlap);
    BoundedAt([], groups, i, weight, target, overlap);
    if i > 0 {
      BoundedAt([], groups, i - 1, weight, target, overlap);
      TailExact(groups[i - 1], weight, overlap);
    }
  }

  /** Each chunk was closed because the first new atom of the next one no longer fitted. */
  ghost predicate GreedyChain<T>(groups: seq<seq<T>>, weight: T -> nat, target: int, overlap: int) {
    forall i :: 0 < i < |groups| ==> ClosedBy(groups[i - 1], groups[i], weight, target, overlap)
  }

  /** The next chunk opens with the carry and with an atom this chunk had no room for. */
  ghost predicate ClosedBy<T>(chunk: seq<T>, next: seq<T>, weight: T -> nat, target: int, overlap: int) {
    var carry := Tail(chunk, weight, overlap);
    chunk != [] && carry < next && Sum(chunk, weight) + weight(next[|carry|]) > target
  }

  lemma GreedyCons<T>(g: seq<T>, more: seq<seq<T>>, weight: T -> nat, target: int, overlap: int)
    requires GreedyChain(more, weight, target, overlap)
    requires more != [] ==> ClosedBy(g, more[0], weight, target, overlap)
    ensures GreedyChain([g] + more, weight, target, overlap)
  {
    var all := [g] + more;
    forall i | 0 < i < |all| ensures ClosedBy(all[i - 1], all[i], weight, target, overlap) {
      assert i > 1 ==> all[i - 1] == more[i - 2] && all[i] == more[i - 1];
    }
  }

  /** The first chunk starts with what has been collected and the atom that comes next. */
  lemma {:induction false} PackGreedy<T>(atoms: seq<T>, current: seq<T>, weight: T -> nat, target: int, overlap: int)
    requires current != []
    ensures var g := Pack(atoms, current, weight, target, overlap);
            g != [] && current <= g[0] && GreedyChain(g, weight, target, overlap)
    decreases |atoms|
  {
    if atoms != [] {
      if Sum(current, weight) + weight(atoms[0]) > target {
        var tail := Tail(current, weight, overlap);
        PackGreedy(atoms[1..], tail + [atoms[0]], weight, target, overlap);
        GreedyCons(current, Pack(atoms[1..], tail + [atoms[0]], weight, target, overlap), weight, target, overlap);
      } else {
        PackGreedy(atoms[1..], current + [atoms[0]], weight, target, overlap);
      }
    }
  }

  /** Packing is greedy: a chunk ends only where the next atom would take it over the target. */
  lemma GroupsGreedy<T>(atoms: seq<T>, weight: T -> nat, target: int, overlap: int)
    ensures GreedyChain(Groups(atoms, weight, target, overlap), weight, target, overlap)
  {
    if atoms != [] { PackGreedy(atoms[1..], [] + [atoms[0]], weight, target, overlap); }
  }

  /** Atoms that fit together make one chunk. */
  lemma {:induction false} PackAllFit<T>(atoms: seq<T>, current: seq<T>, weight: T -> nat, target: int, overlap: int)
    requires current + atoms != [] && (|current + atoms| == 1 || Sum(current + atoms, weight) <= target)
    ensures Pack(atoms, current, weight, target, overlap) == [current + atoms]
    decreases |atoms|
  {
    if atoms == [] {
      assert current + atoms == current;
    } else {
      assert current + [atoms[0]] + atoms[1..] == current + atoms;
      SumAppend(current + [atoms[0]], atoms[1..], weight);
      SumSnoc(current, atoms[0], weight);
      PackAllFit(atoms[1..], current + [atoms[0]], weight, target, overlap);
    }
  }

  // --------------------------------------- exactly when `target` itself is the bound

  function Weight(): nat -> nat {
    (n: nat) => n
  }

  predicate AllBelow(ws: seq<nat>, target: int) {
    forall i :: 0 <= i < |ws| ==> ws[i] < target
  }

  predicate AllWithin(groups: seq<seq<nat>>, target: int) {
    forall i :: 0 <= i < |groups| ==> Sum(groups[i], Weight()) <= target
  }

  /** The documented bound: chunks within target whenever every atom is below it. */
  ghost predicate DocumentedBound(target: int, overlap: int) {
    forall ws: seq<nat> :: AllBelow(ws, target) ==> AllWithin(Groups(ws, Weight(), target, overlap), target)
  }

  predicate SafeOverlap(target: int, overlap: int) {
    overlap <= 0 || target <= overlap || target <= 2
  }

  lemma {:induction false} SafePack(ws: seq<nat>, current: seq<nat>, target: int, overlap: int)
    requires SafeOverlap(target, overlap)
    requires AllBelow(ws, target) && AllBelow(current, target)
    requires Sum(current, Weight()) <= target || current == []
    ensures AllWithin(Pack(ws, current, Weight(), target, overlap), target)
    decreases |ws|
  {
    if ws != [] {
      var a, rest := ws[0], ws[1..];
      if current != [] && Sum(current, Weight()) + a > target {
        var tail := Tail(current, Weight(), overlap);
        TailExact(current, Weight(), overlap);
        SumAppend(tail, [a], Weight());
        assert Sum([a], Weight()) == Sum([a][..0], Weight()) + a;
        if |tail| == 1 {
          assert tail == [current[|current| - 1]];
          assert Sum(tail, Weight()) == Sum(tail[..0], Weight()) + tail[0];
        }
        SafePack(rest, tail + [a], target, overlap);
      } else {
        SumAppend(current, [a], Weight());
        assert Sum([a], Weight()) == Sum([a][..0], Weight()) + a;
        SafePack(rest, current + [a], target, overlap);
      }
    }
  }

  function Overflowing(target: int): seq<nat>
    requires target >= 1
  {
    [1, target - 1, target - 1]
  }

  /** Weights 1, target-1, target-1 break the documented bound: the second chunk is a carry and an atom. */
  lemma CarryOverflows(target: int, overlap: int)
    requires !SafeOverlap(target, overlap)
    ensures AllBelow(Overflowing(target), target)
    ensures !AllWithin(Groups(Overflowing(target), Weight(), target, overlap), target)
  {
    ThreeAtoms(1, target - 1, target - 1, target, overlap);
    SumOfTwo(target - 1, target - 1);
    var g := Groups(Overflowing(target), Weight(), target, overlap);
    assert Sum(g[1], Weight()) > target;
  }

  lemma SumOfTwo(a: nat, b: nat)
    ensures Sum([a], Weight()) == a && Sum([a, b], Weight()) == a + b
  {
    assert [a, b][..1] == [a] && [a][..0] == [];
  }

  lemma TailOfTwo(a: nat, b: nat, overlap: int)
    requires 0 < overlap < a + b
    ensures Tail([a, b], Weight(), overlap) == [b]
  {
    SumOfTwo(a, b);
    TailExact([a, b], Weight(), overlap);
  }

  /** Two atoms fill a chunk, the third opens the next one behind the carried second. */
  lemma ThreeAtoms(a: nat, b: nat, c: nat, target: int, overlap: int)
    requires a + b <= target < a + b + c && 0 < overlap < a + b
    ensures Groups([a, b, c], Weight(), target, overlap) == [[a, b], [b, c]]
  {
    var w := Weight();
    var empty: seq<nat> := [];
    SumOfTwo(a, b);
    TailOfTwo(a, b, overlap);
    assert empty + [a] == [a] && [a] + [b] == [a, b] && [b] + [c] == [b, c];
    assert [a, b, c][1..] == [b, c] && [b, c][1..] == [c] && [c][1..] == empty;
    assert Pack(empty, [b, c], w, target, overlap) == [[b, c]];
    assert Pack([c], [a, b], w, target, overlap) == [[a, b]] + [[b, c]];
    assert Pack([b, c], [a], w, target, overlap) == [[a, b], [b, c]];
    assert Pack([a, b, c], empty, w, target, overlap) == Pack([b, c], [a], w, target, overlap);
  }

  /** Chunks stay within target for all atoms below it iff the overlap is off, covers the target, or target is at most 2. */
  lemma DocumentedBoundExact(target: int, overlap: int)
    ensures DocumentedBound(target, overlap) <==> SafeOverlap(target, overlap)
  {
    if SafeOverlap(target, overlap) {
      forall ws: seq<nat> | AllBelow(ws, target)
        ensures AllWithin(Groups(ws, Weight(), target, overlap), target)
      {
        SafePack(ws, [], target, overlap);
      }
    } else {
      CarryOverflows(target, overlap);
    }
  }

  /** The shipped defaults, target 384 and overlap 48: atoms 50, 300, 300 give a chunk of 600. */
  lemma DefaultsOverflow()
    ensures var ws: seq<nat> := [50, 300, 300];
            && Groups(ws, Weight(), 384, 48) == [[50, 300], [300, 300]]
            && Sum(Groups(ws, Weight(), 384, 48)[1], Weight()) == 600
  {
    ThreeAtoms(50, 300, 300, 384, 48);
    SumOfTwo(300, 300);
  }
}
