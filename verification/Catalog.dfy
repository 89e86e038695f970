/** The normalised property catalogue and its reconstruction (`generate_catalog.py`). */
module Catalog {
  import opened Text
  import opened Dn

  datatype Json =
    | JNull | JBool(b: bool) | JNum(n: int) | JStr(s: string) | JList(items: seq<Json>) | JObject(fields: seq<(string, Json)>)

  /** `bool(value)`. */
  predicate Truthy(j: Json) {
    match j
    case JNull => false
    case JBool(b) => b
    case JNum(n) => n != 0
    case JStr(s) => s != ""
    case JList(items) => items != []
    case JObject(fields) => fields != []
  }

  const NO_FLAVORS := JList([])
  const FLAVORS := "platformFlavors"

  const FLAG_ORDER: seq<string> := [
    "isConfigurable", "needsPropDelimiters", "createOnly", "readWrite", "readOnly", "isNaming", "secure",
    "implicit", "mandatory", "isOverride", "isLike", "isNxosConverged", "isDeprecated", "isHidden"]

  /** One schema property, its keys sorted by how they are routed. */
  datatype Prop = Prop(
    name: Option<string>, comment: Option<Json>, baseType: Option<string>, modelType: Option<string>, uitype: Option<string>,
    default: Option<Json>, likeProp: Option<string>, flags: map<string, bool>, validValues: Option<Json>,
    residual: map<string, Json>, dropped: map<string, Json>, unrouted: set<string>)

  // ---- Flags in one integer

  function Pow2(i: nat): (r: nat)
    ensures r > 0
  {
    if i == 0 then 1 else 2 * Pow2(i - 1)
  }

  /** The bits of the flags set among the first `n`. */
  function Packed(order: seq<string>, flags: map<string, bool>, n: nat): nat
    requires n <= |order|
  {
    if n == 0 then 0
    else Packed(order, flags, n - 1) + if order[n - 1] in flags && flags[order[n - 1]] then Pow2(n - 1) else 0
  }

  /** `bits & (1 << i)`. */
  function Bit(bits: nat, i: nat): bool {
    if i == 0 then bits % 2 == 1 else Bit(bits / 2, i - 1)
  }

  lemma {:induction false} PackedSmall(order: seq<string>, flags: map<string, bool>, n: nat)
    requires n <= |order|
    ensures Packed(order, flags, n) < Pow2(n)
  {
    if n > 0 { PackedSmall(order, flags, n - 1); }
  }

  /** The bit above everything set so far. */
  lemma {:induction false} TopBit(bits: nat, k: nat)
    requires bits < Pow2(k)
    ensures Bit(bits + Pow2(k), k) && !Bit(bits, k)
  {
    if k > 0 {
      TopBit(bits / 2, k - 1);
      assert (bits + 2 * Pow2(k - 1)) / 2 == bits / 2 + Pow2(k - 1);
    }
  }

  /** Adding a higher bit leaves a lower one alone. */
  lemma {:induction false} HigherBit(bits: nat, i: nat, n: nat)
    requires i < n
    ensures Bit(bits + Pow2(n), i) == Bit(bits, i)
  {
    assert (bits + 2 * Pow2(n - 1)) / 2 == bits / 2 + Pow2(n - 1);
    if i > 0 { HigherBit(bits / 2, i - 1, n - 1); }
  }

  /** Unpacking gives every flag back. */
  lemma {:induction false} UnpackPacked(order: seq<string>, flags: map<string, bool>, n: nat, i: nat)
    requires i < n <= |order|
    ensures Bit(Packed(order, flags, n), i) <==> order[i] in flags && flags[order[i]]
  {
    var init := Packed(order, flags, n - 1);
    PackedSmall(order, flags, n - 1);
    var on := order[n - 1] in flags && flags[order[n - 1]];
    if i == n - 1 {
      TopBit(init, n - 1);
    } else {
      UnpackPacked(order, flags, n - 1, i);
      if on { HigherBit(init, i, n - 1); }
    }
  }

  /** `_pack_flags`: refuses a property that lacks a flag. */
  method PackFlags(flags: map<string, bool>) returns (bits: Option<nat>)
    ensures bits.None? <==> exists f :: f in FLAG_ORDER && f !in flags
    ensures bits.Some? ==> bits.value == Packed(FLAG_ORDER, flags, |FLAG_ORDER|)
  {
    var sum: nat := 0;
    for i := 0 to |FLAG_ORDER|
      invariant sum == Packed(FLAG_ORDER, flags, i)
      invariant forall k :: 0 <= k < i ==> FLAG_ORDER[k] in flags
    {
      if FLAG_ORDER[i] !in flags {
        assert FLAG_ORDER[i] in FLAG_ORDER;
        return None;
      }
      if flags[FLAG_ORDER[i]] { sum := sum + Pow2(i); }
    }
    return Some(sum);
  }

  function Unpacked(bits: nat): map<string, bool> {
    map f | f in FLAG_ORDER :: exists i | 0 <= i < |FLAG_ORDER| :: FLAG_ORDER[i] == f && Bit(bits, i)
  }

  lemma FlagsDistinct()
    ensures NoRepeat(FLAG_ORDER)
  {
  }

  /** The flags of a property survive the bitmask. */
  lemma FlagsRoundTrip(flags: map<string, bool>)
    requires flags.Keys == set f | f in FLAG_ORDER
    ensures Unpacked(Packed(FLAG_ORDER, flags, |FLAG_ORDER|)) == flags
  {
    var bits := Packed(FLAG_ORDER, flags, |FLAG_ORDER|);
    FlagsDistinct();
    hide Packed, Bit;
    forall f | f in FLAG_ORDER ensures Unpacked(bits)[f] == flags[f] {
      var k :| 0 <= k < |FLAG_ORDER| && FLAG_ORDER[k] == f;
      UnpackPacked(FLAG_ORDER, flags, |FLAG_ORDER|, k);
      assert f in flags.Keys;
    }
    assert Unpacked(bits).Keys == flags.Keys;
  }
}
