/** The window of relay storage roots: the most recent roots, and the keys that say which is the oldest. */
module RelayRoots {
  import opened Common
  import opened Prefixes

  type RelayNumber = nat

  datatype Window = Window(roots: map<RelayNumber, Hash>, keys: seq<RelayNumber>)

  datatype Entry = Entry(number: RelayNumber, root: Hash)

  /** The length as a 32-bit number; the largest one when it does not fit. */
  function Length32(keys: seq<RelayNumber>): nat {
    Min(|keys|, U32_MAX)
  }

  /** A bounded vector keeps its first `max` elements. */
  function Truncate(keys: seq<RelayNumber>, max: nat): seq<RelayNumber> {
    keys[..Min(|keys|, max)]
  }

  /** A stored vector longer than its bound does not decode and reads as the empty default. */
  function Read(keys: seq<RelayNumber>, max: nat): seq<RelayNumber> {
    if |keys| <= max then keys else []
  }

  function SetRelayStorageRoot(max: u32, s: Window, e: Entry): Window {
    if e.number in s.roots then s
    else
      var roots, keys := s.roots[e.number := e.root], Read(s.keys, max) + [e.number];
      if Length32(keys) > max then Window(roots - {keys[0]}, Truncate(keys[1..], max))
      else Window(roots, Truncate(keys, max))
  }

  class Pallet {
    var roots: map<RelayNumber, Hash>
    var keys: seq<RelayNumber>

    constructor ()
      ensures Contents() == Window(map[], [])
    {
      roots, keys := map[], [];
    }

    ghost function Contents(): Window
      reads this
    {
      Window(roots, keys)
    }

    /** The limit is that of the runtime at the time. */
    method Set(max: u32, e: Entry)
      modifies this
      ensures Contents() == SetRelayStorageRoot(max, old(Contents()), e)
    {
      if e.number in roots {
        return;
      }
      roots := roots[e.number := e.root];
      var deque := Read(keys, max);
      deque := deque + [e.number];
      if Length32(deque) > max {
        var first := deque[0];
        deque := deque[1..];
        roots := roots - {first};
      }
      keys := Truncate(deque, max);
    }
  }

  // ---- The index and the map agree ------------------------------------------------------------

  /** The keys are those of the map, each once. */
  ghost predicate Indexed(s: Window) {
    NoDuplicates(s.keys) && forall n :: n in s.roots <==> n in s.keys
  }

  ghost predicate Consistent(max: u32, s: Window) {
    Indexed(s) && |s.keys| <= max
  }

  /** The stored keys respect the limit, and one more of them can still be counted. */
  predicate HasRoom(max: u32, s: Window, e: Entry) {
    |s.keys| <= max && (e.number in s.roots || max < U32_MAX || |s.keys| < U32_MAX)
  }

  /** Under any limit, whatever it was before: keys and map stay in step, and the keys are never cut, exactly
      when the stored keys respect the limit and their number can still be counted.  So a decreased limit
      breaks a longer list, and the largest 32-bit limit loses the newest key of a full window. */
  lemma SetKeepsConsistentIff(max: u32, s: Window, e: Entry)
    requires Indexed(s)
    ensures Consistent(max, SetRelayStorageRoot(max, s, e)) <==> HasRoom(max, s, e)
    ensures e.number !in s.roots && HasRoom(max, s, e) ==>
              SetRelayStorageRoot(max, s, e).keys
              == if |s.keys| == max then (s.keys + [e.number])[1..] else s.keys + [e.number]
  {
    SetEffect(max, s, e);
    if e.number !in s.roots {
      if HasRoom(max, s, e) {
        RoomKeepsIndexed(max, s, e);
      } else {
        var s', n := SetRelayStorageRoot(max, s, e), if |s.keys| <= max then e.number else s.keys[0];
        assert n in s'.roots && n !in s'.keys;
      }
    }
  }

  lemma RoomKeepsIndexed(max: u32, s: Window, e: Entry)
    requires Indexed(s)
    requires e.number !in s.roots && HasRoom(max, s, e)
    ensures Indexed(SetRelayStorageRoot(max, s, e))
  {
    SetEffect(max, s, e);
    AppendIsDistinct(s.keys, e.number);
    if |s.keys| == max {
      DropFirst(s.keys + [e.number]);
    }
  }

  /** What storing an entry changes: nothing if the number is stored; else the root is added, and it is the newest
      key.  A full window loses its oldest key and root.  A list that is too long reads as empty. */
  lemma SetEffect(max: u32, s: Window, e: Entry)
    ensures var s' := SetRelayStorageRoot(max, s, e);
            if e.number in s.roots then s' == s
            else if |s.keys| < max then
              s'.roots == s.roots[e.number := e.root] && s'.keys == s.keys + [e.number]
            else if |s.keys| == max < U32_MAX then
              var oldest := if max == 0 then e.number else s.keys[0];
              s'.roots == s.roots[e.number := e.root] - {oldest} && s'.keys == (s.keys + [e.number])[1..]
            else if |s.keys| == max then
              s'.roots == s.roots[e.number := e.root] && s'.keys == s.keys
            else if max == 0 then s'.roots == s.roots - {e.number} && s'.keys == []
            else s'.roots == s.roots[e.number := e.root] && s'.keys == [e.number]
  {
    if e.number !in s.roots && |s.keys| <= max {
      assert |s.keys| == max == U32_MAX ==> (s.keys + [e.number])[..max] == s.keys;
    }
  }

  ghost predicate NoDuplicates(keys: seq<RelayNumber>) {
    forall i, j :: 0 <= i < j < |keys| ==> keys[i] != keys[j]
  }

  lemma AppendIsDistinct(keys: seq<RelayNumber>, n: RelayNumber)
    requires NoDuplicates(keys) && n !in keys
    ensures NoDuplicates(keys + [n])
    ensures forall x :: x in keys + [n] <==> x in keys || x == n
  {
  }

  lemma DropFirst(keys: seq<RelayNumber>)
    requires NoDuplicates(keys) && keys != []
    ensures NoDuplicates(keys[1..])
    ensures forall x :: x in keys[1..] <==> x in keys && x != keys[0]
  {
  }

  /** One entry per block, under one limit. */
  function Run(max: u32, history: seq<Entry>): Window {
    if history == [] then Window(map[], [])
    else SetRelayStorageRoot(max, Run(max, history[..|history| - 1]), history[|history| - 1])
  }

  /** The numbers of a history. */
  function Mentioned(history: seq<Entry>): set<RelayNumber> {
    set i | 0 <= i < |history| :: history[i].number
  }

  lemma MentionedAppend(history: seq<Entry>, e: Entry)
    ensures Mentioned(history + [e]) == Mentioned(history) + {e.number}
  {
    var all := history + [e];
    forall n
      ensures n in Mentioned(all) <==> n in Mentioned(history) || n == e.number
    {
      if n in Mentioned(history) {
        var i :| 0 <= i < |history| && history[i].number == n;
        assert all[i].number == n;
      } else if n == e.number {
        assert all[|history|].number == n;
      }
    }
  }

  function Elements(keys: seq<RelayNumber>): set<RelayNumber> {
    set n | n in keys
  }

  lemma {:induction false} DistinctKeysCount(keys: seq<RelayNumber>)
    requires NoDuplicates(keys)
    ensures |Elements(keys)| == |keys|
  {
    if keys == [] {
      assert Elements(keys) == {};
    } else {
      DistinctKeysCount(keys[1..]);
      assert Elements(keys) == Elements(keys[1..]) + {keys[0]};
      assert keys[0] !in Elements(keys[1..]);
    }
  }

  lemma {:induction false} ElementsBound(keys: seq<RelayNumber>)
    ensures |Elements(keys)| <= |keys|
  {
    if keys == [] {
      assert Elements(keys) == {};
    } else {
      ElementsBound(keys[1..]);
      assert Elements(keys) == Elements(keys[1..]) + {keys[0]};
    }
  }

  /** With the largest limit no root is ever removed. */
  lemma {:induction false} LargestLimitKeepsAll(history: seq<Entry>)
    ensures var s := Run(U32_MAX, history);
            s.roots.Keys == Mentioned(history) && |s.keys| <= U32_MAX
  {
    if history == [] {
      assert Mentioned(history) == {};
    } else {
      var init, e := history[..|history| - 1], history[|history| - 1];
      LargestLimitKeepsAll(init);
      MentionedAppend(init, e);
      assert init + [e] == history;
    }
  }

  /** The numbers of keys that the limit allows can all be counted. */
  predicate Countable(max: u32, history: seq<Entry>) {
    max < U32_MAX || |Mentioned(history)| <= U32_MAX
  }

  lemma CountablePrefix(max: u32, history: seq<Entry>, e: Entry)
    requires Countable(max, history + [e])
    ensures Countable(max, history)
  {
    MentionedAppend(history, e);
    if e.number in Mentioned(history) {
      assert Mentioned(history) + {e.number} == Mentioned(history);
    }
  }

  lemma CountableHasRoom(max: u32, history: seq<Entry>, e: Entry)
    requires Countable(max, history + [e])
    requires Consistent(max, Run(max, history))
    ensures HasRoom(max, Run(max, history), e)
  {
    var s := Run(max, history);
    if max == U32_MAX {
      LargestLimitKeepsAll(history);
      MentionedAppend(history, e);
      DistinctKeysCount(s.keys);
      assert Mentioned(history) == Elements(s.keys);
    }
  }

  lemma {:induction false} CountableIsConsistent(max: u32, history: seq<Entry>)
    requires Countable(max, history)
    ensures Consistent(max, Run(max, history))
  {
    if history == [] {
      assert Run(max, history) == Window(map[], []);
    } else {
      var init, e := history[..|history| - 1], history[|history| - 1];
      assert init + [e] == history;
      CountablePrefix(max, init, e);
      CountableIsConsistent(max, init);
      CountableHasRoom(max, init, e);
      SetKeepsConsistentIff(max, Run(max, init), e);
    }
  }

  lemma CountlessIsInconsistent(max: u32, history: seq<Entry>)
    requires !Countable(max, history)
    ensures !Consistent(max, Run(max, history))
  {
    var s := Run(max, history);
    LargestLimitKeepsAll(history);
    ElementsBound(s.keys);
    if Mentioned(history) <= Elements(s.keys) {
      SubsetSize(Mentioned(history), Elements(s.keys));
      assert false;
    }
    var n :| n in Mentioned(history) && n !in Elements(s.keys);
    assert n in s.roots && n !in s.keys;
  }

  /** After any history: keys and map are in step exactly when the limit is not the largest 32-bit number, or
      the history mentions no more numbers than that. */
  lemma RunIsConsistentIff(max: u32, history: seq<Entry>)
    ensures Consistent(max, Run(max, history)) <==> max < U32_MAX || |Mentioned(history)| <= U32_MAX
  {
    if Countable(max, history) {
      CountableIsConsistent(max, history);
    } else {
      CountlessIsInconsistent(max, history);
    }
  }

  // ---- Changing limits ------------------------------------------------------------------------

  /** An entry under the limit of its block. */
  datatype Block = Block(max: u32, entry: Entry)

  function RunBlocks(blocks: seq<Block>): Window {
    if blocks == [] then Window(map[], [])
    else
      var b := blocks[|blocks| - 1];
      SetRelayStorageRoot(b.max, RunBlocks(blocks[..|blocks| - 1]), b.entry)
  }

  /** Keys and map are in step and respect the limit of the latest block. */
  ghost predicate InStep(blocks: seq<Block>) {
    blocks == [] || Consistent(blocks[|blocks| - 1].max, RunBlocks(blocks))
  }

  /** The limit of the next block admits the keys that are stored when it comes. */
  predicate Admits(blocks: seq<Block>, next: Block) {
    HasRoom(next.max, RunBlocks(blocks), next.entry)
  }

  /** When the limit may change from block to block: all is in step after every block exactly when no block's
      limit is below the number of keys stored before it, and keys can still be counted. */
  lemma ChangingLimitsIff(blocks: seq<Block>)
    ensures AfterEvery(blocks, InStep) <==> AtEvery(blocks, Admits)
  {
    forall blocks, b | InStep(blocks)
      ensures InStep(blocks + [b]) <==> Admits(blocks, b)
    {
      assert (blocks + [b])[..|blocks|] == blocks;
      SetKeepsConsistentIff(b.max, RunBlocks(blocks), b.entry);
    }
    ThroughoutIff(blocks, InStep, Admits);
  }

  /** A limit that never decreases is enough. */
  lemma {:induction false} GrowingLimitsStayInStep(blocks: seq<Block>)
    requires forall i, j :: 0 <= i < j < |blocks| ==> blocks[i].max <= blocks[j].max
    requires forall i :: 0 <= i < |blocks| ==> blocks[i].max < U32_MAX
    ensures InStep(blocks) && AfterEvery(blocks, InStep)
  {
    if blocks == [] {
    } else {
      var init, b := blocks[..|blocks| - 1], blocks[|blocks| - 1];
      assert forall i :: 0 <= i < |init| ==> init[i] == blocks[i];
      GrowingLimitsStayInStep(init);
      SetKeepsConsistentIff(b.max, RunBlocks(init), b.entry);
      AfterEverySplits(blocks, InStep);
    }
  }

  /** A decreased limit leaves roots that no key knows of, and that nothing removes. */
  lemma DecreasedLimitStrandsRoots(max: u32, s: Window, e: Entry, n: RelayNumber)
    requires Indexed(s) && max < |s.keys|
    requires e.number !in s.roots && n in s.roots
    ensures var s' := SetRelayStorageRoot(max, s, e);
            n in s'.roots && n !in s'.keys
  {
  }

  // ---- The window -----------------------------------------------------------------------------

  ghost predicate NonDecreasing(history: seq<Entry>) {
    forall i, j :: 0 <= i < j < |history| ==> history[i].number <= history[j].number
  }

  ghost predicate Increasing(ns: seq<RelayNumber>) {
    forall i, j :: 0 <= i < j < |ns| ==> ns[i] < ns[j]
  }

  /** The numbers of a non-decreasing history, each once. */
  function Numbers(history: seq<Entry>): seq<RelayNumber> {
    if history == [] then []
    else
      var before, n := Numbers(history[..|history| - 1]), history[|history| - 1].number;
      if before != [] && before[|before| - 1] == n then before else before + [n]
  }

  /** The root that came with the first mention of a number. */
  function FirstRoot(history: seq<Entry>, n: RelayNumber): Option<Hash> {
    if history == [] then None
    else if history[0].number == n then Some(history[0].root)
    else FirstRoot(history[1..], n)
  }

  function LastOf(numbers: seq<RelayNumber>, max: nat): seq<RelayNumber> {
    if |numbers| <= max then numbers else numbers[|numbers| - max..]
  }

  /** The numbers are strictly increasing, end with the latest, and are those that the history mentions. */
  lemma {:induction false} NumbersIncrease(history: seq<Entry>)
    requires NonDecreasing(history)
    ensures var ns := Numbers(history);
            && Increasing(ns)
            && (history != [] ==> ns != [] && ns[|ns| - 1] == history[|history| - 1].number)
            && (forall n :: n in ns <==> FirstRoot(history, n).Some?)
  {
    if history == [] {
    } else {
      var init, e := history[..|history| - 1], history[|history| - 1];
      NumbersIncrease(init);
      var ns := Numbers(history);
      forall n
        ensures n in ns <==> FirstRoot(history, n).Some?
      {
        FirstRootAppend(init, e, n);
        assert init + [e] == history;
      }
      if init != [] {
        assert init[|init| - 1].number <= e.number;
      }
    }
  }

  lemma {:induction false} FirstRootAppend(history: seq<Entry>, e: Entry, n: RelayNumber)
    ensures FirstRoot(history + [e], n)
            == if FirstRoot(history, n).Some? then FirstRoot(history, n)
               else if e.number == n then Some(e.root) else None
  {
    if history == [] {
    } else {
      assert (history + [e])[1..] == history[1..] + [e];
      FirstRootAppend(history[1..], e, n);
    }
  }

  /** A number that is not below the latest is in the window exactly when it is the latest. */
  lemma StoredIsLatest(max: u32, ns: seq<RelayNumber>, n: RelayNumber)
    requires Increasing(ns)
    requires ns != [] ==> ns[|ns| - 1] <= n
    ensures n in LastOf(ns, max) <==> max > 0 && ns != [] && ns[|ns| - 1] == n
    ensures n in ns <==> ns != [] && ns[|ns| - 1] == n
  {
  }

  lemma LastOfAppend(ns: seq<RelayNumber>, max: u32, n: RelayNumber)
    ensures LastOf(ns + [n], max) == if |ns| < max then ns + [n] else (LastOf(ns, max) + [n])[1..]
  {
  }

  /** One more entry moves the keys along with the numbers. */
  lemma KeysFollow(max: u32, ns: seq<RelayNumber>, s: Window, e: Entry)
    requires Consistent(max, s) && HasRoom(max, s, e)
    requires s.keys == LastOf(ns, max)
    requires Increasing(ns)
    requires ns != [] ==> ns[|ns| - 1] <= e.number
    ensures SetRelayStorageRoot(max, s, e).keys
            == LastOf(if ns != [] && ns[|ns| - 1] == e.number then ns else ns + [e.number], max)
  {
    StoredIsLatest(max, ns, e.number);
    SetKeepsConsistentIff(max, s, e);
    LastOfAppend(ns, max, e.number);
  }

  /** Every stored root is the first one that came with its number. */
  ghost predicate FirstSeen(history: seq<Entry>, s: Window) {
    forall n :: n in s.roots ==> FirstRoot(history, n) == Some(s.roots[n])
  }

  lemma FirstSeenFollows(max: u32, history: seq<Entry>, s: Window, e: Entry)
    requires FirstSeen(history, s)
    requires e.number in s.roots || FirstRoot(history, e.number).None? || max == 0
    requires max == 0 ==> s.keys == []
    ensures FirstSeen(history + [e], SetRelayStorageRoot(max, s, e))
  {
    var s' := SetRelayStorageRoot(max, s, e);
    forall n | n in s'.roots
      ensures FirstRoot(history + [e], n) == Some(s'.roots[n])
    {
      FirstRootAppend(history, e, n);
    }
  }

  /** The next entry is not below the numbers so far, and is known exactly when it is the latest of them. */
  lemma NumbersBelow(history: seq<Entry>, e: Entry)
    requires NonDecreasing(history + [e])
    ensures NonDecreasing(history)
    ensures Increasing(Numbers(history))
    ensures var ns := Numbers(history);
            && (ns != [] ==> ns[|ns| - 1] <= e.number)
            && (FirstRoot(history, e.number).Some? <==> ns != [] && ns[|ns| - 1] == e.number)
  {
    var all := history + [e];
    assert forall i :: 0 <= i < |history| ==> all[i] == history[i];
    NumbersIncrease(history);
    if history != [] {
      assert all[|history| - 1].number <= all[|history|].number;
    }
    StoredIsLatest(0, Numbers(history), e.number);
  }

  lemma EntryFollows(max: u32, history: seq<Entry>, s: Window, e: Entry)
    requires Consistent(max, s) && HasRoom(max, s, e)
    requires s.keys == LastOf(Numbers(history), max) && FirstSeen(history, s)
    requires Increasing(Numbers(history))
    requires var ns := Numbers(history);
             && (ns != [] ==> ns[|ns| - 1] <= e.number)
             && (FirstRoot(history, e.number).Some? <==> ns != [] && ns[|ns| - 1] == e.number)
    ensures SetRelayStorageRoot(max, s, e).keys == LastOf(Numbers(history + [e]), max)
    ensures FirstSeen(history + [e], SetRelayStorageRoot(max, s, e))
  {
    var ns := Numbers(history);
    assert SetRelayStorageRoot(max, s, e).keys == LastOf(Numbers(history + [e]), max) by {
      NumbersAppend(history, e);
      KeysFollow(max, ns, s, e);
    }
    assert FirstSeen(history + [e], SetRelayStorageRoot(max, s, e)) by {
      assert e.number in s.keys <==> max > 0 && FirstRoot(history, e.number).Some? by {
        StoredIsLatest(max, ns, e.number);
      }
      FirstSeenFollows(max, history, s, e);
    }
  }

  lemma NumbersAppend(history: seq<Entry>, e: Entry)
    ensures var ns := Numbers(history);
            Numbers(history + [e]) == if ns != [] && ns[|ns| - 1] == e.number then ns else ns + [e.number]
  {
  }

  /** As long as relay numbers do not go back, the keys are the latest numbers, at most `max` of them and in
      order, and each is stored with the root that came with its first mention. */
  lemma {:induction false} WindowIsMostRecent(max: u32, history: seq<Entry>)
    requires Countable(max, history)
    requires NonDecreasing(history)
    ensures Run(max, history).keys == LastOf(Numbers(history), max)
    ensures FirstSeen(history, Run(max, history))
  {
    if history == [] {
    } else {
      var init, e := history[..|history| - 1], history[|history| - 1];
      assert init + [e] == history;
      CountablePrefix(max, init, e);
      WindowIsMostRecent(max, init);
      CountableIsConsistent(max, init);
      CountableHasRoom(max, init, e);
      NumbersBelow(init, e);
      EntryFollows(max, init, Run(max, init), e);
    }
  }

  /** What the window means: its keys are strictly increasing, exactly the stored numbers, and nothing more
      recent is missing. */
  lemma WindowHoldsTheLatest(max: u32, history: seq<Entry>, n: RelayNumber)
    requires Countable(max, history)
    requires NonDecreasing(history)
    ensures var s := Run(max, history);
            && Increasing(s.keys)
            && (n in s.roots <==> n in s.keys)
            && (FirstRoot(history, n).Some? && n !in s.roots ==> |s.keys| == max && forall k :: k in s.keys ==> n < k)
  {
    WindowIsMostRecent(max, history);
    CountableIsConsistent(max, history);
    NumbersIncrease(history);
    var s, ns := Run(max, history), Numbers(history);
    if FirstRoot(history, n).Some? && n !in s.roots {
      var i :| 0 <= i < |ns| && ns[i] == n;
    }
  }
}
