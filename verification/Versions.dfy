/**
 The per-aggregate version arithmetic every service shares: minting the next version, storing
 one monotonically, spotting a gap, and the gate that decides what to do with one delivery.
 */
module Versions {
  import opened Ranges
  import opened Wrappers

  const I64_MAX: int := 0x7fff_ffff_ffff_ffff
  const I64_MIN: int := -0x8000_0000_0000_0000

  /** How many deliveries a gap gets before it is applied anyway. */
  const MAX_GAP_WAIT: int := 30

  /** What a database can answer about one aggregate's version. */
  datatype Applied = At(version: int) | Pending | Unavailable

  datatype Decision = Apply | Skip | Park

  /** Whether a guarded write moved its row. */
  datatype Changed = Yes | No

  /** The gate. The order of the cases is the order of the source's match arms. */
  function Decide(stored: Applied, incoming: int, delivered: int): Decision {
    match stored
    case Unavailable => Apply
    case Pending =>
      if incoming <= 1 then Apply
      else if delivered >= MAX_GAP_WAIT then Apply
      else Park
    case At(have) =>
      if incoming == have + 1 then Apply
      else if incoming <= have then Skip
      else if delivered >= MAX_GAP_WAIT then Apply
      else Park
  }

  /** An event whose predecessor is not stored: the only case the gate may park. */
  predicate IsGap(stored: Applied, incoming: int) {
    match stored
    case Unavailable => false
    case Pending => incoming > 1
    case At(have) => incoming > have + 1
  }

  /** What the reader answers for a row that holds `version`, or for no row at all. */
  function AppliedOf(version: Option<int>): Applied {
    match version
    case None => Pending
    case Some(v) => At(v)
  }

  /** The version an aggregate has after the write about to be made (`next_version!`). */
  function NextVersion(stored: Option<int>): int {
    match stored
    case None => 1
    case Some(v) => (if v < 0 then 0 else v) + 1
  }

  /** `WHERE version < v`: the stored version after recording `v` (`set_version!`). */
  function SetVersion(stored: int, v: int): int {
    if stored < v then v else stored
  }

  function SaturatingAdd(a: int, b: int): int {
    if a + b > I64_MAX then I64_MAX else if a + b < I64_MIN then I64_MIN else a + b
  }

  function CheckedSub(a: int, b: int): Option<int> {
    if I64_MIN <= a - b <= I64_MAX then Some(a - b) else None
  }

  /** How many events are missing between `stored` and `incoming`, if any. */
  function VersionGap(stored: Option<int>, incoming: int): Option<int> {
    match stored
    case None => None
    case Some(have) =>
      match CheckedSub(incoming, SaturatingAdd(have, 1))
      case Some(missing) => if missing > 0 then Some(missing) else None
      case None => None
  }

  /**
   The gate and the gap report agree: on a stored row an event is parked exactly when events
   are missing and its redelivery budget is not spent, and then the report counts exactly the
   versions strictly between the stored one and the incoming one.
   */
  lemma GateAgreesWithGapReport(have: int, incoming: int, delivered: int)
    requires 0 <= have <= I64_MAX && I64_MIN <= incoming <= I64_MAX
    ensures Decide(At(have), incoming, delivered) == Park
       <==> VersionGap(Some(have), incoming).Some? && delivered < 30
    ensures Decide(At(have), incoming, delivered) == Skip <==> incoming <= have
    ensures VersionGap(Some(have), incoming).Some?
        ==> VersionGap(Some(have), incoming).value == |Range(have + 1, incoming)|
  {
  }

  /** Without a row only an event past the first waits, for as long; without a table nothing does; and
      neither is ever skipped. */
  lemma GateWithoutARow(incoming: int, delivered: int)
    ensures Decide(Pending, incoming, delivered) == Park <==> incoming > 1 && delivered < 30
    ensures Decide(Pending, incoming, delivered) != Skip && Decide(Unavailable, incoming, delivered) == Apply
  {
  }
}
