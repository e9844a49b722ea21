/**
  components/MiscellaneousFees.tsx: ticking optional fees and setting their quantities, and
  splitting a course's optional fees into standard charges and services.
 */
module MiscellaneousFees {
  import opened Wrappers
  import opened JsBuiltins
  import opened Types

  /** The invariant the handlers keep: every stored quantity is above 0. */
  predicate PositiveQuantities(selection: MiscFeeSelection)
  {
    forall feeId :: feeId in selection ==> selection[feeId] > 0
  }

  /**
    A tick box changed. Ticking a flat fee stores 1; ticking a per-unit fee keeps a stored
    non-zero quantity, else stores 1; unticking deletes the key. The handler edits a copy,
    so the caller's selection is untouched and every other key keeps its quantity.
   */
  method HandleFeeChange(selectedFees: MiscFeeSelection, fee: MiscFee, checked: bool)
    returns (newFees: MiscFeeSelection)
    ensures checked && !fee.isPerUnit ==> fee.id in newFees && newFees[fee.id] == 1
    ensures checked && fee.isPerUnit ==>
      fee.id in newFees &&
      newFees[fee.id] == (if fee.id in selectedFees && selectedFees[fee.id] != 0 then selectedFees[fee.id] else 1)
    ensures !checked ==> fee.id !in newFees
    ensures forall feeId :: feeId != fee.id ==> (feeId in newFees <==> feeId in selectedFees)
    ensures forall feeId :: feeId != fee.id && feeId in newFees ==> newFees[feeId] == selectedFees[feeId]
    ensures PositiveQuantities(selectedFees) ==> PositiveQuantities(newFees)
  {
    newFees := selectedFees;
    if checked {
      var existing := if fee.id in newFees then Some(newFees[fee.id]) else None;
      newFees := newFees[fee.id := if fee.isPerUnit then IntOr(existing, 1) else 1];
    } else {
      newFees := newFees - {fee.id};
    }
  }

  /**
    A quantity changed: a quantity above 0 is stored, any other deletes the key. Every other
    key keeps its quantity.
   */
  method HandleQuantityChange(selectedFees: MiscFeeSelection, feeId: string, quantity: int)
    returns (newFees: MiscFeeSelection)
    ensures quantity > 0 ==> feeId in newFees && newFees[feeId] == quantity
    ensures quantity <= 0 ==> feeId !in newFees
    ensures forall k :: k != feeId ==> (k in newFees <==> k in selectedFees)
    ensures forall k :: k != feeId && k in newFees ==> newFees[k] == selectedFees[k]
    ensures PositiveQuantities(selectedFees) ==> PositiveQuantities(newFees)
  {
    newFees := selectedFees;
    if quantity > 0 {
      newFees := newFees[feeId := quantity];
    } else {
      newFees := newFees - {feeId};
    }
  }

  /**
    The quantity field: `parseInt` of the text, with NaN and 0 read as 1. A negative number
    passes through, and the quantity handler then deletes the key.
   */
  function QuantityInput(text: string): (quantity: int)
    ensures quantity != 0
    ensures ParseInt(text).None? ==> quantity == 1
    ensures ParseInt(text).Some? && ParseInt(text).value != 0 ==> quantity == ParseInt(text).value
  {
    IntOr(ParseInt(text), 1)
  }

  /** A typed whole number is the quantity itself, except 0, which becomes 1. */
  lemma QuantityInputOfDecimal(n: nat)
    ensures QuantityInput(Decimal(n)) == if n == 0 then 1 else n
  {
    ParseIntOfDecimal(n, "");
    assert Decimal(n) + "" == Decimal(n);
  }

  /** A fee with category standard, or with no category, is a standard fee. */
  predicate IsStandardFee(fee: MiscFee)
  {
    fee.category == Some(Standard) || fee.category.None?
  }

  predicate IsServiceFee(fee: MiscFee)
  {
    fee.category == Some(Service)
  }

  /** The standard list: `filter` on category standard or absent, in the course's order. */
  function StandardFees(fees: seq<MiscFee>): (standard: seq<MiscFee>)
    ensures forall f :: f in standard <==> f in fees && IsStandardFee(f)
  {
    FilterMembers(fees, IsStandardFee);
    Filter(fees, IsStandardFee)
  }

  /** The service list: `filter` on category service, in the course's order. */
  function ServiceFees(fees: seq<MiscFee>): (service: seq<MiscFee>)
    ensures forall f :: f in service <==> f in fees && IsServiceFee(f)
  {
    FilterMembers(fees, IsServiceFee);
    Filter(fees, IsServiceFee)
  }

  /** Every fee lands in exactly one of the two lists, as often as it occurs in the course. */
  lemma FeeListsPartition(fees: seq<MiscFee>)
    ensures multiset(StandardFees(fees)) + multiset(ServiceFees(fees)) == multiset(fees)
  {
    forall f: MiscFee
      ensures IsServiceFee(f) <==> !IsStandardFee(f)
    {
      if f.category.Some? {
        if f.category.value.Standard? {
          assert f.category == Some(Standard);
        } else {
          assert f.category == Some(Service);
        }
      }
    }
    FilterPartition(fees, IsStandardFee, IsServiceFee);
  }

  /**
    Both lists keep the course's order: splitting a concatenation is concatenating the
    splits of its parts.
   */
  lemma FeeListsKeepOrder(a: seq<MiscFee>, b: seq<MiscFee>)
    ensures StandardFees(a + b) == StandardFees(a) + StandardFees(b)
    ensures ServiceFees(a + b) == ServiceFees(a) + ServiceFees(b)
  {
    FilterDistributes(a, b, IsStandardFee);
    FilterDistributes(a, b, IsServiceFee);
  }

  /** The two lists together are exactly as long as the course's list. */
  lemma FeeListSizes(fees: seq<MiscFee>)
    ensures |StandardFees(fees)| + |ServiceFees(fees)| == |fees|
  {
    FeeListsPartition(fees);
    assert |multiset(StandardFees(fees)) + multiset(ServiceFees(fees))| == |multiset(fees)|;
  }
}
