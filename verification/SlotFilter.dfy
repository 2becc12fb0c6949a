/** The author slot filter: a pseudo-random selection of the authors that may build in a slot. */
module SlotFilter {
  import opened Common

  /** Randomness source: 32 bytes for each subject. */
  type Source = Bytes -> (byte, byte, byte, byte, Bytes)

  /** "filter", the two low bytes of the index (lowest first) and the seed (highest first). */
  function Subject(index: nat, seed: u32): Bytes {
    [0x66, 0x69, 0x6C, 0x74, 0x65, 0x72]
    + [index % 256, index / 256 % 256]
    + [seed / 0x100_0000 % 256, seed / 0x1_0000 % 256, seed / 0x100 % 256, seed % 256]
  }

  /** The first four bytes of the sample as a 32-bit number, lowest byte first. */
  function Sample(source: Source, index: nat, seed: u32): nat {
    var h := source(Subject(index, seed));
    h.0 + 0x100 * h.1 + 0x1_0000 * h.2 + 0x100_0000 * h.3
  }

  /** The samples that are drawn in a slot. */
  function Samples(source: Source, seed: u32): nat -> nat {
    index => Sample(source, index, seed)
  }

  /** The position that a sample takes out of `size` remaining ones. */
  function Choice(sample: nat, size: nat): (r: nat)
    requires size > 0
    ensures r < size
  {
    sample % size
  }

  datatype Split = Split(eligible: seq<AccountId>, ineligible: seq<AccountId>)

  function RemoveAt<T>(s: seq<T>, i: nat): seq<T>
    requires i < |s|
  {
    s[..i] + s[i + 1..]
  }

  /** Move one author over. */
  function Take(s: Split, i: nat): Split
    requires i < |s.ineligible|
  {
    Split(s.eligible + [s.ineligible[i]], RemoveAt(s.ineligible, i))
  }

  lemma RemoveAtKeepsOthers<T>(s: seq<T>, i: nat)
    requires i < |s|
    ensures multiset(RemoveAt(s, i)) + multiset{s[i]} == multiset(s)
  {
    assert s == s[..i] + [s[i]] + s[i + 1..];
  }

  lemma RemoveAtShifts<T>(s: seq<T>, i: nat)
    requires i < |s|
    ensures |RemoveAt(s, i)| == |s| - 1
    ensures forall k :: 0 <= k < |s| - 1 ==> RemoveAt(s, i)[k] == s[if k < i then k else k + 1]
  {
  }

  lemma StepPermutes(s: Split, i: nat)
    requires i < |s.ineligible|
    ensures multiset(Take(s, i).eligible) + multiset(Take(s, i).ineligible)
            == multiset(s.eligible) + multiset(s.ineligible)
  {
    RemoveAtKeepsOthers(s.ineligible, i);
  }

  /** The listed positions are in order and hold the authors that were not drawn. */
  ghost predicate Holds(active: seq<AccountId>, rest: seq<AccountId>, kept: seq<nat>) {
    && |kept| == |rest|
    && (forall k :: 0 <= k < |kept| ==> kept[k] < |active| && rest[k] == active[kept[k]])
    && (forall j, k :: 0 <= j < k < |kept| ==> kept[j] < kept[k])
  }

  lemma TakeKeepsOrder(active: seq<AccountId>, s: Split, kept: seq<nat>, i: nat)
    requires i < |s.ineligible|
    requires Holds(active, s.ineligible, kept)
    ensures Holds(active, Take(s, i).ineligible, RemoveAt(kept, i))
  {
    RemoveAtShifts(s.ineligible, i);
    RemoveAtShifts(kept, i);
  }

  /** The authors after `n` draws. */
  function Draws(samples: nat -> nat, active: seq<AccountId>, n: nat): (r: Split)
    requires n <= |active|
    ensures |r.eligible| == n && |r.ineligible| == |active| - n
  {
    if n == 0 then Split([], active)
    else
      var before := Draws(samples, active, n - 1);
      var i := Choice(samples(n - 1), |before.ineligible|);
      Take(before, i)
  }

  function Subset(source: Source, count: u32, active: seq<AccountId>, seed: u32): Split {
    Draws(Samples(source, seed), active, Min(count, |active|))
  }

  /** The selection loop. */
  method ComputePseudoRandomSubset(source: Source, count: u32, authors: seq<AccountId>, seed: u32)
    returns (eligible: seq<AccountId>, ineligible: seq<AccountId>)
    ensures Split(eligible, ineligible) == Subset(source, count, authors, seed)
    ensures |eligible| == Min(count, |authors|)
    ensures multiset(eligible) + multiset(ineligible) == multiset(authors)
    ensures exists left :: DrawnBy(source, seed, authors, Split(eligible, ineligible), left)
  {
    var active := authors;
    var numEligible := count;
    if numEligible > |active| {
      numEligible := |active|;
    }
    eligible := [];
    for i := 0 to numEligible
      invariant Split(eligible, active) == Draws(Samples(source, seed), authors, i)
    {
      var selected := Choice(Sample(source, i, seed), |active|);
      eligible := eligible + [active[selected]];
      active := active[..selected] + active[selected + 1..];
    }
    ineligible := active;
    DrawsPermute(Samples(source, seed), authors, numEligible);
    DrawsFollowTheRandomness(source, seed, authors, numEligible);
  }

  /** Every author ends up on exactly one side, as often as it was listed. */
  lemma {:induction false} DrawsPermute(samples: nat -> nat, active: seq<AccountId>, n: nat)
    requires n <= |active|
    ensures var r := Draws(samples, active, n);
            multiset(r.eligible) + multiset(r.ineligible) == multiset(active)
  {
    if n == 0 {
    } else {
      DrawsPermute(samples, active, n - 1);
      var before := Draws(samples, active, n - 1);
      var i := Choice(samples(n - 1), |before.ineligible|);
      var after := Take(before, i);
      assert multiset(after.eligible) + multiset(after.ineligible) == multiset(active) by {
        StepPermutes(before, i);
      }
      assert Draws(samples, active, n) == after;
    }
  }

  // ---- What the randomness selects ------------------------------------------------------------

  /** Draw `i` takes, of those left, the one at the position that the first four bytes, lowest first, of the
      randomness for "filter", the index in two bytes, lowest first, and the seed in four, highest first, give
      modulo their number.  The others keep their order. */
  ghost predicate DrawnInStep(source: Source, seed: u32, i: nat, left: seq<AccountId>, drawn: AccountId,
                              left': seq<AccountId>)
  {
    && |left| > 0
    && var h := source([0x66, 0x69, 0x6C, 0x74, 0x65, 0x72, i % 256, i / 256 % 256, seed / 0x100_0000 % 256,
                        seed / 0x1_0000 % 256, seed / 0x100 % 256, seed % 256]);
       var p := (h.0 + 0x100 * h.1 + 0x1_0000 * h.2 + 0x100_0000 * h.3) % |left|;
       drawn == left[p] && left' == left[..p] + left[p + 1..]
  }

  /** The eligible are drawn one after the other.  `left` lists who is left before each draw and after the last. */
  ghost predicate DrawnBy(source: Source, seed: u32, authors: seq<AccountId>, split: Split,
                          left: seq<seq<AccountId>>)
  {
    var n := |split.eligible|;
    && |left| == n + 1
    && left[0] == authors && left[n] == split.ineligible
    && forall i: nat :: i < n ==> DrawnInStep(source, seed, i, left[i], split.eligible[i], left[i + 1])
  }

  /** Who is left before each of `n` draws and after the last. */
  ghost function Lefts(source: Source, seed: u32, authors: seq<AccountId>, n: nat): seq<seq<AccountId>>
    requires n <= |authors|
  {
    seq(n + 1, i requires 0 <= i <= n => Draws(Samples(source, seed), authors, i).ineligible)
  }

  lemma SampleDraws(source: Source, seed: u32, i: nat, left: seq<AccountId>)
    requires |left| > 0
    ensures var p := Sample(source, i, seed) % |left|;
            DrawnInStep(source, seed, i, left, left[p], left[..p] + left[p + 1..])
  {
    assert Subject(i, seed)
        == [0x66, 0x69, 0x6C, 0x74, 0x65, 0x72, i % 256, i / 256 % 256, seed / 0x100_0000 % 256,
            seed / 0x1_0000 % 256, seed / 0x100 % 256, seed % 256];
  }

  /** What is drawn in step `i` is found in the same place of any longer list of draws. */
  lemma DrawsTake(samples: nat -> nat, active: seq<AccountId>, n: nat, i: nat)
    requires i < n <= |active|
    ensures var left := Draws(samples, active, i).ineligible;
            var p := samples(i) % |left|;
            && Draws(samples, active, n).eligible[i] == left[p]
            && Draws(samples, active, i + 1).ineligible == left[..p] + left[p + 1..]
  {
    DrawsExtend(samples, active, i + 1, n);
  }

  lemma StepFollowsTheRandomness(source: Source, seed: u32, authors: seq<AccountId>, n: nat, i: nat)
    requires i < n <= |authors|
    ensures var samples := Samples(source, seed);
            DrawnInStep(source, seed, i, Draws(samples, authors, i).ineligible, Draws(samples, authors, n).eligible[i],
                        Draws(samples, authors, i + 1).ineligible)
  {
    SampleDraws(source, seed, i, Draws(Samples(source, seed), authors, i).ineligible);
    DrawsTake(Samples(source, seed), authors, n, i);
  }

  lemma DrawsFollowTheRandomness(source: Source, seed: u32, authors: seq<AccountId>, n: nat)
    requires n <= |authors|
    ensures DrawnBy(source, seed, authors, Draws(Samples(source, seed), authors, n), Lefts(source, seed, authors, n))
  {
    var samples, left := Samples(source, seed), Lefts(source, seed, authors, n);
    forall i: nat | i < n
      ensures DrawnInStep(source, seed, i, left[i], Draws(samples, authors, n).eligible[i], left[i + 1])
    {
      StepFollowsTheRandomness(source, seed, authors, n, i);
      assert left[i] == Draws(samples, authors, i).ineligible;
      assert left[i + 1] == Draws(samples, authors, i + 1).ineligible;
    }
  }

  lemma StepIsDetermined(source: Source, seed: u32, i: nat, left: seq<AccountId>, a: AccountId, a': seq<AccountId>,
                         b: AccountId, b': seq<AccountId>)
    requires DrawnInStep(source, seed, i, left, a, a') && DrawnInStep(source, seed, i, left, b, b')
    ensures a == b && a' == b'
  {
  }

  /** There is one way only to draw a number of authors. */
  lemma {:induction false} DrawsAreDetermined(source: Source, seed: u32, authors: seq<AccountId>, a: Split,
                                              left: seq<seq<AccountId>>, b: Split, left': seq<seq<AccountId>>, k: nat)
    requires DrawnBy(source, seed, authors, a, left) && DrawnBy(source, seed, authors, b, left')
    requires |a.eligible| == |b.eligible| >= k
    ensures left[k] == left'[k] && a.eligible[..k] == b.eligible[..k]
  {
    if k == 0 {
    } else {
      DrawsAreDetermined(source, seed, authors, a, left, b, left', k - 1);
      var j := k - 1;
      StepIsDetermined(source, seed, j, left[j], a.eligible[j], left[j + 1], b.eligible[j], left'[j + 1]);
      assert a.eligible[..k] == a.eligible[..k - 1] + [a.eligible[k - 1]];
      assert b.eligible[..k] == b.eligible[..k - 1] + [b.eligible[k - 1]];
    }
  }

  /** A split is the selection exactly when it has as many eligible authors as the count says, or all, and they
      are those that the randomness draws. */
  lemma SubsetIffDrawn(source: Source, count: u32, authors: seq<AccountId>, seed: u32, split: Split)
    ensures split == Subset(source, count, authors, seed)
            <==> |split.eligible| == Min(count, |authors|) && exists left :: DrawnBy(source, seed, authors, split, left)
  {
    var n, subset := Min(count, |authors|), Subset(source, count, authors, seed);
    var lefts := Lefts(source, seed, authors, n);
    DrawsFollowTheRandomness(source, seed, authors, n);
    if |split.eligible| == n && exists left :: DrawnBy(source, seed, authors, split, left) {
      var left :| DrawnBy(source, seed, authors, split, left);
      DrawsAreDetermined(source, seed, authors, split, left, subset, lefts, n);
      assert split.eligible[..n] == split.eligible && subset.eligible[..n] == subset.eligible;
    }
  }

  /** The positions in the input of those that were not drawn. */
  ghost function Kept(samples: nat -> nat, active: seq<AccountId>, n: nat): (r: seq<nat>)
    requires n <= |active|
    ensures |r| == |active| - n
  {
    if n == 0 then seq(|active|, i => i)
    else
      RemoveAt(Kept(samples, active, n - 1), Choice(samples(n - 1), |active| - n + 1))
  }

  /** Those that were not drawn keep their order. */
  lemma {:induction false} IneligibleKeepOrder(samples: nat -> nat, active: seq<AccountId>, n: nat)
    requires n <= |active|
    ensures Holds(active, Draws(samples, active, n).ineligible, Kept(samples, active, n))
  {
    if n == 0 {
    } else {
      IneligibleKeepOrder(samples, active, n - 1);
      var i := Choice(samples(n - 1), |active| - n + 1);
      var before := Draws(samples, active, n - 1);
      assert Draws(samples, active, n) == Take(before, i);
      TakeKeepsOrder(active, before, Kept(samples, active, n - 1), i);
    }
  }

  /** A further draw only appends: with a larger count, everybody who was eligible stays eligible, in the
      same place. */
  lemma {:induction false} DrawsExtend(samples: nat -> nat, active: seq<AccountId>, n: nat, m: nat)
    requires n <= m <= |active|
    ensures Draws(samples, active, n).eligible <= Draws(samples, active, m).eligible
    decreases m
  {
    if n == m {
    } else {
      DrawsExtend(samples, active, n, m - 1);
    }
  }

  // ---- The pallet -----------------------------------------------------------------------------

  /** `fake` is the switch for test chains that lets everybody author. */
  predicate CanAuthor(source: Source, fake: bool, count: u32, authors: seq<AccountId>, author: AccountId, slot: u32) {
    fake || author in Subset(source, count, authors, slot).eligible
  }

  /** Raising the count never takes eligibility away. */
  lemma CanAuthorMonotone(source: Source, fake: bool, count: u32, count': u32, authors: seq<AccountId>,
                          author: AccountId, slot: u32)
    requires count <= count'
    requires CanAuthor(source, fake, count, authors, author, slot)
    ensures CanAuthor(source, fake, count', authors, author, slot)
  {
    var small, large := Subset(source, count, authors, slot).eligible, Subset(source, count', authors, slot).eligible;
    DrawsExtend(Samples(source, slot), authors, Min(count, |authors|), Min(count', |authors|));
    if !fake {
      var k :| 0 <= k < |small| && small[k] == author;
      assert large[k] == author;
    }
  }

  /** Nobody but a potential author is eligible, and all of them are once the count covers them; with the switch
      on, everybody is. */
  lemma CanAuthorBounds(source: Source, count: u32, authors: seq<AccountId>, author: AccountId, slot: u32)
    ensures CanAuthor(source, true, count, authors, author, slot)
    ensures CanAuthor(source, false, count, authors, author, slot) ==> author in authors
    ensures count >= |authors| ==> (CanAuthor(source, false, count, authors, author, slot) <==> author in authors)
  {
    var r := Subset(source, count, authors, slot);
    DrawsPermute(Samples(source, slot), authors, Min(count, |authors|));
    assert author in r.eligible <==> author in multiset(r.eligible);
    assert author in authors <==> author in multiset(authors);
    if count >= |authors| {
      assert r.ineligible == [];
    }
  }

  class Pallet {
    const source: Source
    var fakeAuthor: bool
    var eligibleCount: u32

    constructor (source: Source, eligibleCount: u32)
      requires eligibleCount != 0
      ensures this.source == source && this.eligibleCount == eligibleCount && !fakeAuthor
    {
      this.source := source;
      this.eligibleCount, fakeAuthor := eligibleCount, false;
    }

    method SetEligible(isRoot: bool, count: u32) returns (ok: bool)
      requires count != 0
      modifies this`eligibleCount
      ensures ok == isRoot
      ensures eligibleCount == if isRoot then count else old(eligibleCount)
    {
      if !isRoot {
        return false;
      }
      eligibleCount := count;
      ok := true;
    }

    method CheckAuthor(authors: seq<AccountId>, author: AccountId, slot: u32) returns (ok: bool)
      ensures ok == CanAuthor(source, fakeAuthor, eligibleCount, authors, author, slot)
    {
      if fakeAuthor {
        return true;
      }
      var eligible, _ := ComputePseudoRandomSubset(source, eligibleCount, authors, slot);
      ok := author in eligible;
    }
  }
}
