/** The two scans the resolver runs over a filtered list of formats: the running maximum of a
    key among formats that fit the budget (first seen wins a tie, because the update uses a
    strict `>`), and the first format of an exact height that fits. Results are indices. */
module Selection {
  import opened Wrappers
  import opened Formats

  /** Among `fs[..n]`, `k` fits, no fitting format has a larger key, and every fitting format
      before `k` has a strictly smaller key (so `k` is the first maximum). */
  predicate IsFirstMaxBelow(fs: seq<Format>, budget: int, key: Format -> real, n: nat, k: nat) {
    && k < n <= |fs|
    && Fits(fs[k], budget)
    && (forall j :: 0 <= j < n && Fits(fs[j], budget) ==> key(fs[j]) <= key(fs[k]))
    && (forall j :: 0 <= j < k && Fits(fs[j], budget) ==> key(fs[j]) < key(fs[k]))
  }

  predicate IsFirstMax(fs: seq<Format>, budget: int, key: Format -> real, k: nat) {
    IsFirstMaxBelow(fs, budget, key, |fs|, k)
  }

  predicate NoneFitBelow(fs: seq<Format>, budget: int, n: nat)
    requires n <= |fs|
  {
    forall j :: 0 <= j < n ==> !Fits(fs[j], budget)
  }

  predicate NoneFit(fs: seq<Format>, budget: int) {
    NoneFitBelow(fs, budget, |fs|)
  }

  /** The loop `for fmt in fs: if fits(fmt) and (best is None or key(fmt) > key(best)): best = fmt`
      from position `i` on, with `best` the value carried so far. */
  function ScanFrom(fs: seq<Format>, budget: int, key: Format -> real, i: nat, best: Option<nat>): (r: Option<nat>)
    requires i <= |fs|
    requires best.Some? ==> best.value < i && Fits(fs[best.value], budget)
    ensures r.Some? ==> r.value < |fs| && Fits(fs[r.value], budget)
    ensures best.Some? ==> r.Some?
    decreases |fs| - i
  {
    if i == |fs| then best
    else
      var take := Fits(fs[i], budget) && (best.None? || key(fs[i]) > key(fs[best.value]));
      ScanFrom(fs, budget, key, i + 1, if take then Some(i) else best)
  }

  /** The scan keeps its invariant: what it has seen so far either holds no fitting format, or
      its first maximum is the carried index. */
  lemma {:induction false} ScanFromSpec(fs: seq<Format>, budget: int, key: Format -> real, i: nat, best: Option<nat>)
    requires i <= |fs|
    requires best.None? ==> NoneFitBelow(fs, budget, i)
    requires best.Some? ==> IsFirstMaxBelow(fs, budget, key, i, best.value)
    ensures ScanFrom(fs, budget, key, i, best).None? ==> NoneFit(fs, budget)
    ensures ScanFrom(fs, budget, key, i, best).Some? ==>
              IsFirstMax(fs, budget, key, ScanFrom(fs, budget, key, i, best).value)
    decreases |fs| - i
  {
    if i < |fs| {
      var take := Fits(fs[i], budget) && (best.None? || key(fs[i]) > key(fs[best.value]));
      var next := if take then Some(i) else best;
      ScanFromSpec(fs, budget, key, i + 1, next);
    }
  }

  /** The running maximum of `key` among the formats of `fs` that fit `budget`. */
  function BestFitting(fs: seq<Format>, budget: int, key: Format -> real): (r: Option<nat>)
    ensures r.None? <==> NoneFit(fs, budget)
    ensures r.Some? ==> IsFirstMax(fs, budget, key, r.value)
  {
    ScanFromSpec(fs, budget, key, 0, None);
    ScanFrom(fs, budget, key, 0, None)
  }

  /** There is only one first maximum, so `BestFitting` is determined by its contract. */
  lemma FirstMaxUnique(fs: seq<Format>, budget: int, key: Format -> real, k1: nat, k2: nat)
    requires IsFirstMax(fs, budget, key, k1) && IsFirstMax(fs, budget, key, k2)
    ensures k1 == k2
  {
  }

  /** The exact-height test: `fmt.get('height') == target` and the size test. */
  predicate MatchesHeight(f: Format, h: nat, budget: int) {
    f.height == Some(h) && Fits(f, budget)
  }

  /** `for fmt in fs: if fmt.get('height') == h: if fits(fmt): return fmt`, from position `i` on. */
  function FirstAtHeight(fs: seq<Format>, h: nat, budget: int, i: nat): (r: Option<nat>)
    requires i <= |fs|
    ensures r.Some? ==> i <= r.value < |fs| && MatchesHeight(fs[r.value], h, budget)
    ensures r.Some? ==> forall j :: i <= j < r.value ==> !MatchesHeight(fs[j], h, budget)
    ensures r.None? ==> forall j :: i <= j < |fs| ==> !MatchesHeight(fs[j], h, budget)
    decreases |fs| - i
  {
    if i == |fs| then None
    else if MatchesHeight(fs[i], h, budget) then Some(i)
    else FirstAtHeight(fs, h, budget, i + 1)
  }

  /** An exact-height match is a fitting format, so once no format fits, no height can match:
      the numeric steps that follow a `best` step never succeed. */
  lemma NoFitNoHeight(fs: seq<Format>, h: nat, budget: int)
    requires BestFitting(fs, budget, HeightKey).None?
    ensures FirstAtHeight(fs, h, budget, 0).None?
  {
  }
}
