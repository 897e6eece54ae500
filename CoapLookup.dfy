/** coap_findOptions: the block of consecutive options carrying one option number. */
module CoapLookup {
  import opened ByteOrder
  import opened CoapTypes

  /** opts[f .. f + count] is a maximal run of options numbered num, and no
      option before it has that number. */
  ghost predicate IsFirstRun(opts: seq<CoapOption>, num: byte, f: nat, count: nat)
  {
    && f + count <= |opts| && count >= 1
    && (forall i :: 0 <= i < f ==> opts[i].num != num)
    && (forall i :: f <= i < f + count ==> opts[i].num == num)
    && (f + count == |opts| || opts[f + count].num != num)
  }

  /** coap_findOptions: the first option numbered num and how many options
      after it, itself included, carry the same number without interruption;
      no option at all when none has that number. The 8-bit count cannot wrap
      because numopts is itself a uint8_t. */
  method FindOptions(pkt: Packet, num: byte) returns (first: Option<nat>, count: nat)
    requires |pkt.opts| < 0x100
    ensures first.None? <==> forall i :: 0 <= i < |pkt.opts| ==> pkt.opts[i].num != num
    ensures first.None? ==> count == 0
    ensures first.Some? ==> IsFirstRun(pkt.opts, num, first.value, count)
  {
    var opts := pkt.opts;
    first := None;
    count := 0;
    var i := 0;
    while i < |opts|
      invariant 0 <= i <= |opts|
      invariant first.None? ==> count == 0 && forall k :: 0 <= k < i ==> opts[k].num != num
      invariant first.Some? ==>
        && first.value + count == i && count >= 1
        && (forall k :: 0 <= k < first.value ==> opts[k].num != num)
        && (forall k :: first.value <= k < i ==> opts[k].num == num)
    {
      if opts[i].num == num {
        if first.None? {
          first := Some(i);
        }
        count := count + 1;
      } else if first.Some? {
        break;
      }
      i := i + 1;
    }
    assert first.Some? ==> opts[first.value].num == num;
  }

  /** The option numbers never decrease along the array, as coap_build's
      ordering leaves them. */
  ghost predicate NumsSorted(opts: seq<CoapOption>)
  {
    forall i, j :: 0 <= i < j < |opts| ==> opts[i].num <= opts[j].num
  }

  /** On options sorted by number the run coap_findOptions reports holds every
      option with that number, which is what the source's comment relies on. */
  lemma SortedRunHoldsAll(opts: seq<CoapOption>, num: byte, f: nat, count: nat)
    requires NumsSorted(opts) && IsFirstRun(opts, num, f, count)
    ensures forall i :: 0 <= i < |opts| && opts[i].num == num ==> f <= i < f + count
  {
    forall i | f + count <= i < |opts|
      ensures opts[i].num > num
    {
      assert opts[f].num <= opts[f + count].num <= opts[i].num;
    }
  }

  /** Unsorted options show the stop at the first mismatch: of the two options
      numbered 11 only the first is counted. */
  lemma UnsortedRunExample(f: nat, count: nat)
    requires IsFirstRun([CoapOption(11, []), CoapOption(15, []), CoapOption(11, [])], 11, f, count)
    ensures f == 0 && count == 1
  {
    var opts := [CoapOption(11, []), CoapOption(15, []), CoapOption(11, [])];
    assert opts[0].num == 11 && opts[1].num != 11;
  }
}
