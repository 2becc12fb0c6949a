/** The fixed-velocity consensus hook: how many blocks may share a relay slot, and its off-chain predictor. */
module AsyncBacking {
  import opened Common
  import opened Arithmetic

  /** The relay slot of the latest block and the number of blocks built on it. */
  datatype SlotInfo = SlotInfo(slot: u64, authored: u32)

  type State = Option<SlotInfo>

  datatype Config = Config(
    velocity: u32,
    capacity: u32,
    relaySlotMillis: u32,
    paraSlotMillis: u64,
    allowMultipleBlocksPerSlot: bool)

  /** Where a block takes its own slot from: the relay slot, or a provider whose slot must match it. */
  datatype SlotSource = RelaySlot | ParaSlot(relayMillis: u32, slot: u64, millis: u64)

  /** At least one block per slot. */
  function Velocity(cfg: Config): u32 {
    Max(cfg.velocity, 1)
  }

  function RelayTimestamp(millis: u32, slot: u64): u64 {
    Min(millis * slot, U64_MAX)
  }

  /** None when the duration is zero: the division panics. */
  function SlotFromTimestamp(timestamp: u64, millis: u64): Option<u64> {
    if millis == 0 then None else Some(SlotAt(timestamp, millis))
  }

  function SlotAt(timestamp: u64, millis: u64): u64
    requires millis > 0
  {
    QuotientBound(timestamp, millis);
    timestamp / millis
  }

  /** None stands for an error. */
  function GetAndVerifySlot(source: SlotSource, relaySlot: u64): Option<u64> {
    match source
    case RelaySlot => Some(relaySlot)
    case ParaSlot(relayMillis, slot, millis) =>
      var expected := SlotFromTimestamp(RelayTimestamp(relayMillis, relaySlot), millis);
      if expected == Some(slot) then Some(slot) else None
  }

  /** How many blocks the slot already has; none when the slot may not be used. */
  function AuthoredInSlot(cfg: Config, s: State, slot: u64): Option<u32> {
    match s
    case None => Some(0)
    case Some(info) =>
      if info.slot < slot then Some(0)
      else if info.slot == slot && cfg.allowMultipleBlocksPerSlot then Some(info.authored)
      else None
  }

  /** A count as the 32-bit integer it is. */
  function Wrap32(n: nat): u32 {
    n % (U32_MAX + 1)
  }

  /** None stands for a panic, which makes the block invalid. */
  function OnStateProofInner(cfg: Config, s: State, source: SlotSource, slot: u64): Option<SlotInfo> {
    match AuthoredInSlot(cfg, s, slot)
    case None => None
    case Some(authored) =>
      if authored > Velocity(cfg) then None
      else
        var own := GetAndVerifySlot(source, slot);
        var limit := SlotFromTimestamp(RelayTimestamp(cfg.relaySlotMillis, slot), cfg.paraSlotMillis);
        if own.None? || limit.None? || own.value > limit.value then None
        else Some(SlotInfo(slot, Wrap32(authored + 1)))
  }

  predicate CanBuildUpon(cfg: Config, s: State, sizeAfterIncluded: nat, slot: u64) {
    match s
    case None => true
    case Some(info) =>
      && sizeAfterIncluded < cfg.capacity
      && (if info.slot == slot then info.authored < Wrap32(Velocity(cfg) + 1) else info.slot < slot)
  }

  /** The timestamp must lie in the relay slot. */
  predicate PostInherents(cfg: Config, s: State, now: u64) {
    cfg.paraSlotMillis != 0 && s.Some? && s.value.slot == SlotAt(now, cfg.paraSlotMillis)
  }

  /** The configuration in force, a relay slot, the source of the block's own slot, and a timestamp. */
  datatype Block = Block(cfg: Config, slot: u64, source: SlotSource, now: u64)

  /** The hook, and whatever else a block must pass: nothing, or the check on its timestamp, or more. */
  function Accept(passes: Block -> bool, s: State, b: Block): Option<State> {
    match OnStateProofInner(b.cfg, s, b.source, b.slot)
    case None => None
    case Some(info) => if passes(b) then Some(Some(info)) else None
  }

  /** The timestamp of the block lies in its relay slot. */
  predicate TimestampInSlot(b: Block) {
    b.cfg.paraSlotMillis != 0 && b.slot == SlotAt(b.now, b.cfg.paraSlotMillis)
  }

  /** The state after proposing blocks one after the other; a rejected block leaves no trace. */
  function Final(passes: Block -> bool, blocks: seq<Block>): State {
    if blocks == [] then None
    else
      var before := Final(passes, blocks[..|blocks| - 1]);
      match Accept(passes, before, blocks[|blocks| - 1])
      case Some(s) => s
      case None => before
  }

  /** The proposed blocks that made it. */
  function Accepted(passes: Block -> bool, blocks: seq<Block>): seq<Block> {
    if blocks == [] then []
    else
      var init, b := blocks[..|blocks| - 1], blocks[|blocks| - 1];
      Accepted(passes, init) + if Accept(passes, Final(passes, init), b).Some? then [b] else []
  }

  // ---- What is accepted -----------------------------------------------------------------------

  /** The slot of a given length into which the start of a relay slot falls, in 64-bit milliseconds. */
  function SlotOfRelay(relayMillis: u32, relaySlot: u64, millis: u64): int
    requires millis > 0
  {
    Min(relayMillis * relaySlot, U64_MAX) / millis
  }

  /** Exactly which blocks the hook accepts: the slot does not go back; a slot is shared only if that is allowed
      and its blocks do not exceed the velocity; slots have a length; the block's own slot is the relay slot, or
      the one that its provider's lengths make of it; and it is not in the future. */
  lemma HookAcceptsIff(cfg: Config, s: State, source: SlotSource, slot: u64)
    ensures OnStateProofInner(cfg, s, source, slot).Some? <==>
            && (s.Some? ==> s.value.slot <= slot)
            && (s.Some? && s.value.slot == slot ==>
                  cfg.allowMultipleBlocksPerSlot && s.value.authored <= Max(cfg.velocity, 1))
            && cfg.paraSlotMillis > 0
            && (match source
                case RelaySlot => slot <= SlotOfRelay(cfg.relaySlotMillis, slot, cfg.paraSlotMillis)
                case ParaSlot(relayMillis, own, millis) =>
                  && millis > 0
                  && own == SlotOfRelay(relayMillis, slot, millis)
                  && own <= SlotOfRelay(cfg.relaySlotMillis, slot, cfg.paraSlotMillis))
    ensures var o := OnStateProofInner(cfg, s, source, slot);
            o.Some? ==>
              && o.value.slot == slot
              && o.value.authored == if s.Some? && s.value.slot == slot then Wrap32(s.value.authored + 1) else 1
  {
  }

  /** The predictor says yes on an empty chain; otherwise the segment must have room, and the slot be later, or
      the same with fewer blocks than the velocity plus one, as a 32-bit number. */
  lemma PredictorSaysYesIff(cfg: Config, s: State, size: nat, slot: u64)
    ensures CanBuildUpon(cfg, s, size, slot) <==>
            || s.None?
            || (&& size < cfg.capacity
                && s.value.slot <= slot
                && (s.value.slot == slot ==>
                      s.value.authored < if cfg.velocity < U32_MAX then Max(cfg.velocity, 1) + 1 else 0))
  {
  }

  // ---- Throughput -----------------------------------------------------------------------------

  /** How many blocks of the list have a relay slot from `lo` to `hi`. */
  function CountSlots(blocks: seq<Block>, lo: int, hi: int): nat {
    if blocks == [] then 0
    else CountSlots(blocks[..|blocks| - 1], lo, hi) + if lo <= blocks[|blocks| - 1].slot <= hi then 1 else 0
  }

  /** How many blocks of the list have a timestamp from `from` to `to`. */
  function CountTimes(blocks: seq<Block>, from: nat, to: nat): nat {
    if blocks == [] then 0
    else CountTimes(blocks[..|blocks| - 1], from, to) + if from <= blocks[|blocks| - 1].now <= to then 1 else 0
  }

  function BlocksPerSlot(cfg: Config): nat {
    if cfg.allowMultipleBlocksPerSlot then Velocity(cfg) + 1 else 1
  }

  /** Slots never decrease, and the stored info is the latest slot with the number of its blocks. */
  ghost predicate Tracks(s: State, accepted: seq<Block>) {
    && (forall i, j :: 0 <= i < j < |accepted| ==> accepted[i].slot <= accepted[j].slot)
    && (s.None? <==> accepted == [])
    && (s.Some? ==>
          && s.value.slot == accepted[|accepted| - 1].slot
          && s.value.authored == Wrap32(CountSlots(accepted, s.value.slot, s.value.slot)))
  }

  lemma {:induction false} NoLaterSlots(blocks: seq<Block>, lo: int, hi: int)
    requires forall i :: 0 <= i < |blocks| ==> blocks[i].slot < lo
    ensures CountSlots(blocks, lo, hi) == 0
  {
    if blocks == [] {
    } else {
      NoLaterSlots(blocks[..|blocks| - 1], lo, hi);
    }
  }

  lemma CountAfterAppend(accepted: seq<Block>, b: Block)
    ensures CountSlots(accepted + [b], b.slot, b.slot) == CountSlots(accepted, b.slot, b.slot) + 1
  {
    assert (accepted + [b])[..|accepted|] == accepted;
  }

  lemma WrapNext(n: nat)
    ensures Wrap32(Wrap32(n) + 1) == Wrap32(n + 1)
  {
  }

  lemma AcceptKeepsTracking(passes: Block -> bool, s: State, accepted: seq<Block>, b: Block)
    requires Tracks(s, accepted)
    requires Accept(passes, s, b).Some?
    ensures Tracks(Accept(passes, s, b).value, accepted + [b])
  {
    CountAfterAppend(accepted, b);
    WrapNext(CountSlots(accepted, b.slot, b.slot));
    if s.None? || s.value.slot < b.slot {
      NoLaterSlots(accepted, b.slot, b.slot);
    }
  }

  /** Whatever is proposed, whatever else is checked, and whatever the configurations: accepted slots never
      decrease, and the stored info is the latest slot with the number of its blocks, in 32 bits. */
  lemma {:induction false} SlotsAreTracked(passes: Block -> bool, blocks: seq<Block>)
    ensures Tracks(Final(passes, blocks), Accepted(passes, blocks))
  {
    if blocks == [] {
    } else {
      var init, b := blocks[..|blocks| - 1], blocks[|blocks| - 1];
      SlotsAreTracked(passes, init);
      if Accept(passes, Final(passes, init), b).Some? {
        AcceptKeepsTracking(passes, Final(passes, init), Accepted(passes, init), b);
      } else {
        assert Accepted(passes, blocks) == Accepted(passes, init);
      }
    }
  }

  /** Accepted blocks were proposed, passed, have slots of some length, and their own slot is the one that the
      relay slot stands for. */
  lemma {:induction false} AcceptedWereProposed(passes: Block -> bool, blocks: seq<Block>)
    ensures forall b :: b in Accepted(passes, blocks) ==>
              && b in blocks && passes(b) && b.cfg.paraSlotMillis > 0
              && (b.source.ParaSlot? ==>
                    && b.source.millis > 0
                    && b.source.slot == SlotOfRelay(b.source.relayMillis, b.slot, b.source.millis))
  {
    if blocks == [] {
    } else {
      var init, b := blocks[..|blocks| - 1], blocks[|blocks| - 1];
      AcceptedWereProposed(passes, init);
      HookAcceptsIff(b.cfg, Final(passes, init), b.source, b.slot);
    }
  }

  /** A slot cannot get as many blocks as 32 bits count: the velocity stops it, or one block is all, or there
      are no blocks. */
  predicate NeverWraps(cfg: Config) {
    cfg.velocity < U32_MAX || !cfg.allowMultipleBlocksPerSlot || cfg.paraSlotMillis == 0
  }

  /** When block `i` came, its slot had not more than the share that its own configuration grants. */
  ghost predicate WithinShare(accepted: seq<Block>, i: nat)
    requires i < |accepted|
  {
    CountSlots(accepted[..i + 1], accepted[i].slot, accepted[i].slot) <= BlocksPerSlot(accepted[i].cfg)
  }

  ghost predicate AllWithinShare(accepted: seq<Block>) {
    forall i: nat :: i < |accepted| ==> WithinShare(accepted, i)
  }

  /** Within its share, and without wrapping, the stored count is exact. */
  lemma CountIsExact(s: State, accepted: seq<Block>)
    requires Tracks(s, accepted) && AllWithinShare(accepted)
    requires forall b :: b in accepted ==> NeverWraps(b.cfg) && b.cfg.paraSlotMillis > 0
    ensures s.Some? ==> s.value.authored == CountSlots(accepted, s.value.slot, s.value.slot)
  {
    if s.Some? {
      var last := accepted[|accepted| - 1];
      assert WithinShare(accepted, |accepted| - 1) && accepted[..|accepted|] == accepted;
      assert last in accepted;
    }
  }

  lemma AcceptKeepsShares(passes: Block -> bool, s: State, accepted: seq<Block>, b: Block)
    requires Tracks(s, accepted) && AllWithinShare(accepted)
    requires forall x :: x in accepted ==> NeverWraps(x.cfg) && x.cfg.paraSlotMillis > 0
    requires Accept(passes, s, b).Some?
    ensures AllWithinShare(accepted + [b])
  {
    var accepted' := accepted + [b];
    forall i: nat | i < |accepted|
      ensures WithinShare(accepted', i)
    {
      assert WithinShare(accepted, i) && accepted'[..i + 1] == accepted[..i + 1];
    }
    assert WithinShare(accepted', |accepted|) by {
      assert accepted'[..|accepted| + 1] == accepted' && accepted'[..|accepted|] == accepted;
      CountIsExact(s, accepted);
      if s.None? || s.value.slot < b.slot {
        NoLaterSlots(accepted, b.slot, b.slot);
      }
    }
  }

  /** Whatever is proposed and whatever else is checked: no block comes when its slot has its share already, as
      the configuration of that block sets it, and the stored count is exact. */
  lemma {:induction false} VelocityIsBounded(passes: Block -> bool, blocks: seq<Block>)
    requires forall b :: b in blocks ==> NeverWraps(b.cfg)
    ensures AllWithinShare(Accepted(passes, blocks))
    ensures var s := Final(passes, blocks);
            s.Some? ==> s.value.authored == CountSlots(Accepted(passes, blocks), s.value.slot, s.value.slot)
  {
    AcceptedWereProposed(passes, blocks);
    SlotsAreTracked(passes, blocks);
    if blocks == [] {
    } else {
      var init, b := blocks[..|blocks| - 1], blocks[|blocks| - 1];
      VelocityIsBounded(passes, init);
      AcceptedWereProposed(passes, init);
      SlotsAreTracked(passes, init);
      if Accept(passes, Final(passes, init), b).Some? {
        AcceptKeepsShares(passes, Final(passes, init), Accepted(passes, init), b);
      } else {
        assert Accepted(passes, blocks) == Accepted(passes, init);
      }
    }
    CountIsExact(Final(passes, blocks), Accepted(passes, blocks));
  }

  /** So a slot never has more blocks than the largest share that its blocks were granted. */
  lemma {:induction false} SlotWithinShare(accepted: seq<Block>, slot: int, share: nat)
    requires AllWithinShare(accepted)
    requires forall b :: b in accepted ==> BlocksPerSlot(b.cfg) <= share
    ensures CountSlots(accepted, slot, slot) <= share
  {
    if accepted == [] {
    } else {
      var n := |accepted| - 1;
      if accepted[n].slot == slot {
        assert WithinShare(accepted, n) && accepted[..n + 1] == accepted;
        assert accepted[n] in accepted;
      } else {
        forall i: nat | i < n
          ensures WithinShare(accepted[..n], i)
        {
          assert WithinShare(accepted, i) && accepted[..n][..i + 1] == accepted[..i + 1];
        }
        SlotWithinShare(accepted[..n], slot, share);
      }
    }
  }

  lemma {:induction false} CountSlotsSplit(blocks: seq<Block>, lo: int, mid: int, hi: int)
    requires lo <= mid + 1 <= hi + 1
    ensures CountSlots(blocks, lo, hi) == CountSlots(blocks, lo, mid) + CountSlots(blocks, mid + 1, hi)
  {
    if blocks == [] {
    } else {
      CountSlotsSplit(blocks[..|blocks| - 1], lo, mid, hi);
    }
  }

  /** A bound per slot is a bound per range of slots. */
  lemma {:induction false} CountSlotsBound(blocks: seq<Block>, lo: int, hi: int, share: nat)
    requires forall slot :: CountSlots(blocks, slot, slot) <= share
    requires lo <= hi + 1
    ensures CountSlots(blocks, lo, hi) <= (hi - lo + 1) * share
    decreases hi - lo + 1
  {
    if lo <= hi {
      CountSlotsBound(blocks, lo, hi - 1, share);
      CountSlotsSplit(blocks, lo, hi - 1, hi);
      assert (hi - lo + 1) * share == (hi - lo) * share + share;
    } else {
      EmptyRange(blocks, lo, hi);
    }
  }

  lemma {:induction false} EmptyRange(blocks: seq<Block>, lo: int, hi: int)
    requires lo > hi
    ensures CountSlots(blocks, lo, hi) == 0
  {
    if blocks == [] {
    } else {
      EmptyRange(blocks[..|blocks| - 1], lo, hi);
    }
  }

  lemma {:induction false} TimesWithinSlots(blocks: seq<Block>, from: u64, to: u64, millis: u64)
    requires millis > 0
    requires forall i :: 0 <= i < |blocks| ==> blocks[i].slot == SlotAt(blocks[i].now, millis)
    ensures CountTimes(blocks, from, to) <= CountSlots(blocks, SlotAt(from, millis), SlotAt(to, millis))
  {
    if blocks == [] {
    } else {
      TimesWithinSlots(blocks[..|blocks| - 1], from, to, millis);
      var b := blocks[|blocks| - 1];
      if from <= b.now <= to {
        QuotientMonotone(from, b.now, millis);
        QuotientMonotone(b.now, to, millis);
      }
    }
  }

  /** With the check on timestamps among those a block must pass, and one slot duration: however many blocks
      are proposed, those accepted with timestamps in an interval are at most the slots it touches times the
      largest share. */
  lemma ThroughputIsBounded(passes: Block -> bool, blocks: seq<Block>, from: u64, to: u64, millis: u64, share: nat)
    requires millis > 0 && from <= to
    requires forall b :: passes(b) ==> TimestampInSlot(b)
    requires forall b :: b in blocks ==>
               NeverWraps(b.cfg) && b.cfg.paraSlotMillis == millis && BlocksPerSlot(b.cfg) <= share
    ensures CountTimes(Accepted(passes, blocks), from, to) <= (to / millis - from / millis + 1) * share
  {
    var accepted := Accepted(passes, blocks);
    VelocityIsBounded(passes, blocks);
    AcceptedWereProposed(passes, blocks);
    assert forall i :: 0 <= i < |accepted| ==> accepted[i] in accepted;
    TimesWithinSlots(accepted, from, to, millis);
    QuotientMonotone(from, to, millis);
    forall slot
      ensures CountSlots(accepted, slot, slot) <= share
    {
      SlotWithinShare(accepted, slot, share);
    }
    CountSlotsBound(accepted, SlotAt(from, millis), SlotAt(to, millis), share);
  }

  // ---- Exactly which configurations bound the velocity ----------------------------------------

  /** All blocks are made under one configuration. */
  ghost predicate Under(cfg: Config, blocks: seq<Block>) {
    forall b :: b in blocks ==> b.cfg == cfg
  }

  /** No slot ever gets more than its share. */
  ghost predicate SharesAreKept(cfg: Config) {
    forall passes: Block -> bool, blocks: seq<Block>, slot: u64 :: Under(cfg, blocks) ==>
      CountSlots(Accepted(passes, blocks), slot, slot) <= BlocksPerSlot(cfg)
  }

  /** With the check on timestamps, no interval ever gets more than the share of the slots it touches. */
  ghost predicate ThroughputIsKept(cfg: Config)
    requires cfg.paraSlotMillis > 0
  {
    forall blocks: seq<Block>, from: u64, to: u64 :: Under(cfg, blocks) && from <= to ==>
      CountTimes(Accepted(TimestampInSlot, blocks), from, to)
      <= (to / cfg.paraSlotMillis - from / cfg.paraSlotMillis + 1) * BlocksPerSlot(cfg)
  }

  /** The first block of slot zero, over and over. */
  function Copies(cfg: Config, n: nat): seq<Block> {
    seq(n, _ => Block(cfg, 0, RelaySlot, 0))
  }

  lemma {:induction false} CopiesCount(cfg: Config, n: nat)
    ensures CountSlots(Copies(cfg, n), 0, 0) == CountTimes(Copies(cfg, n), 0, 0) == n
  {
    if n == 0 {
    } else {
      CopiesCount(cfg, n - 1);
      assert Copies(cfg, n)[..n - 1] == Copies(cfg, n - 1);
    }
  }

  lemma CopyIsAccepted(cfg: Config, n: nat)
    requires !NeverWraps(cfg)
    ensures var s := if n == 0 then None else Some(SlotInfo(0, Wrap32(n)));
            Accept(TimestampInSlot, s, Block(cfg, 0, RelaySlot, 0)) == Some(Some(SlotInfo(0, Wrap32(n + 1))))
  {
    WrapNext(n);
  }

  /** When the count may grow to the largest 32-bit number, it wraps and all copies are accepted. */
  lemma {:induction false} AllCopiesAreAccepted(cfg: Config, n: nat)
    requires !NeverWraps(cfg)
    ensures Accepted(TimestampInSlot, Copies(cfg, n)) == Copies(cfg, n)
    ensures Final(TimestampInSlot, Copies(cfg, n)) == if n == 0 then None else Some(SlotInfo(0, Wrap32(n)))
  {
    if n == 0 {
    } else {
      var before, b := Copies(cfg, n - 1), Block(cfg, 0, RelaySlot, 0);
      AllCopiesAreAccepted(cfg, n - 1);
      assert Copies(cfg, n) == before + [b] && Copies(cfg, n)[..n - 1] == before;
      CopyIsAccepted(cfg, n - 1);
    }
  }

  /** For all checks and all lists of blocks, no slot exceeds its share exactly when the velocity is not the
      largest 32-bit number, or only one block may use a slot, or the slot duration is zero. */
  lemma VelocityIsBoundedIff(cfg: Config)
    ensures SharesAreKept(cfg) <==> NeverWraps(cfg)
  {
    if NeverWraps(cfg) {
      forall passes: Block -> bool, blocks: seq<Block>, slot: u64 | Under(cfg, blocks)
        ensures CountSlots(Accepted(passes, blocks), slot, slot) <= BlocksPerSlot(cfg)
      {
        VelocityIsBounded(passes, blocks);
        AcceptedWereProposed(passes, blocks);
        SlotWithinShare(Accepted(passes, blocks), slot, BlocksPerSlot(cfg));
      }
    } else {
      var n := U32_MAX + 2;
      AllCopiesAreAccepted(cfg, n);
      CopiesCount(cfg, n);
      assert Under(cfg, Copies(cfg, n));
      assert CountSlots(Accepted(TimestampInSlot, Copies(cfg, n)), 0, 0) > BlocksPerSlot(cfg);
    }
  }

  /** The same condition decides the bound on intervals. */
  lemma ThroughputIsBoundedIff(cfg: Config)
    requires cfg.paraSlotMillis > 0
    ensures ThroughputIsKept(cfg) <==> NeverWraps(cfg)
  {
    if NeverWraps(cfg) {
      forall blocks: seq<Block>, from: u64, to: u64 | Under(cfg, blocks) && from <= to
        ensures CountTimes(Accepted(TimestampInSlot, blocks), from, to)
                <= (to / cfg.paraSlotMillis - from / cfg.paraSlotMillis + 1) * BlocksPerSlot(cfg)
      {
        ThroughputIsBounded(TimestampInSlot, blocks, from, to, cfg.paraSlotMillis, BlocksPerSlot(cfg));
      }
    } else {
      var n := U32_MAX + 2;
      AllCopiesAreAccepted(cfg, n);
      CopiesCount(cfg, n);
      assert Under(cfg, Copies(cfg, n));
      assert CountTimes(Accepted(TimestampInSlot, Copies(cfg, n)), 0, 0) > BlocksPerSlot(cfg);
    }
  }

  // ---- The predictor --------------------------------------------------------------------------

  /** The predictor and the hook give the same answer for every state, every segment that has room and
      every slot whose timestamp fits 64 bits. */
  ghost predicate PredictorAgrees(cfg: Config) {
    forall s: State, size: nat, slot: u64 {:trigger CanBuildUpon(cfg, s, size, slot)} ::
      size < cfg.capacity && cfg.relaySlotMillis * slot <= U64_MAX ==>
        (CanBuildUpon(cfg, s, size, slot) <==> OnStateProofInner(cfg, s, RelaySlot, slot).Some?)
  }

  /** A relay slot's timestamp reaches the slot of the same number exactly when slots are no longer than
      relay slots, or the number is zero. */
  lemma SlotReachable(relay: nat, para: nat, slot: nat)
    requires para > 0
    ensures slot <= (relay * slot) / para <==> para <= relay || slot == 0
  {
    var n := relay * slot;
    var q := n / para;
    assert n == para * q + n % para;
    if para <= relay {
      MulMonotone(para, relay, slot);
      assert para * (q + 1 - slot) == para * q + para - para * slot;
      PositiveFactor(para, q + 1 - slot);
    } else if slot > 0 {
      MulMonotone(relay + 1, para, slot);
      assert slot * (relay + 1) == n + slot;
      assert para * (slot - q) == para * slot - para * q;
      PositiveFactor(para, slot - q);
    }
  }

  /** They agree exactly when there never is room, or when a slot lasts no longer than a relay slot and
      several blocks may share one just if the largest velocity, at which the predictor wraps, is avoided. */
  lemma PredictorAgreesIff(cfg: Config)
    ensures PredictorAgrees(cfg)
            <==> || cfg.capacity == 0
                 || (&& 0 < cfg.paraSlotMillis <= cfg.relaySlotMillis
                     && (cfg.allowMultipleBlocksPerSlot <==> cfg.velocity < U32_MAX))
  {
    if 0 < cfg.paraSlotMillis <= cfg.relaySlotMillis
       && (cfg.allowMultipleBlocksPerSlot <==> cfg.velocity < U32_MAX) {
      forall s: State, size: nat, slot: u64 | size < cfg.capacity && cfg.relaySlotMillis * slot <= U64_MAX
        ensures CanBuildUpon(cfg, s, size, slot) <==> OnStateProofInner(cfg, s, RelaySlot, slot).Some?
      {
        SlotReachable(cfg.relaySlotMillis, cfg.paraSlotMillis, slot);
      }
    } else if cfg.capacity > 0 && PredictorAgrees(cfg) {
      var s: State := Some(SlotInfo(0, 0));
      assert CanBuildUpon(cfg, None, 0, 1);
      assert CanBuildUpon(cfg, s, 0, 0) <==> OnStateProofInner(cfg, s, RelaySlot, 0).Some?;
      if cfg.paraSlotMillis > 0 {
        SlotReachable(cfg.relaySlotMillis, cfg.paraSlotMillis, 1);
      }
      assert false;
    }
  }

  /** An empty segment can be extended in every later slot exactly when the configured capacity is not zero,
      although the hook itself always grants room for at least one block. */
  lemma EmptySegmentExtendsIff(cfg: Config, info: SlotInfo)
    requires info.slot < U64_MAX
    ensures (forall slot: u64 :: slot > info.slot ==> CanBuildUpon(cfg, Some(info), 0, slot)) <==> cfg.capacity >= 1
  {
    if cfg.capacity == 0 {
      assert !CanBuildUpon(cfg, Some(info), 0, info.slot + 1);
    }
  }

  // ---- The hook -------------------------------------------------------------------------------

  class Hook {
    var slotInfo: State

    constructor ()
      ensures slotInfo == None
    {
      slotInfo := None;
    }

    /** A panic undoes what the block has written. */
    method OnStateProof(cfg: Config, source: SlotSource, slot: u64) returns (valid: bool, capacity: u32)
      modifies this
      ensures var o := OnStateProofInner(cfg, old(slotInfo), source, slot);
              valid == o.Some? && slotInfo == if o.Some? then o else old(slotInfo)
      ensures valid ==> capacity == Max(cfg.capacity, 1)
    {
      var before := slotInfo;
      capacity := 0;
      var velocity := Velocity(cfg);
      var authored: u32 := 0;
      if slotInfo.Some? {
        var info := slotInfo.value;
        if info.slot == slot {
          if !cfg.allowMultipleBlocksPerSlot {
            return false, 0;
          }
          authored := info.authored;
        } else if info.slot > slot {
          return false, 0;
        }
      }
      if authored > velocity {
        return false, 0;
      }
      slotInfo := Some(SlotInfo(slot, Wrap32(authored + 1)));
      var own := GetAndVerifySlot(source, slot);
      var limit := SlotFromTimestamp(RelayTimestamp(cfg.relaySlotMillis, slot), cfg.paraSlotMillis);
      if own.None? || limit.None? || own.value > limit.value {
        slotInfo := before;
        return false, 0;
      }
      return true, Max(cfg.capacity, 1);
    }

    /** Propose a block: the state proof, then the timestamp, then the check on both. */
    method Propose(b: Block) returns (valid: bool)
      modifies this
      ensures var o := Accept(TimestampInSlot, old(slotInfo), b);
              valid == o.Some? && slotInfo == if o.Some? then o.value else old(slotInfo)
    {
      var before := slotInfo;
      var ok, _ := OnStateProof(b.cfg, b.source, b.slot);
      if !ok {
        return false;
      }
      if !PostInherents(b.cfg, slotInfo, b.now) {
        slotInfo := before;
        return false;
      }
      valid := true;
    }
  }
}
