/**
 What the canonical list of networks holds: each network that was given, in one spelling, and once, however
 often and in whatever spellings it was given.
 */
module NetworkLists {
  import opened ListFacts
  import opened Outcomes
  import opened Text
  import opened Prefixes

  lemma {:induction false} Pow2Grows(m: nat, n: nat)
    requires m < n
    ensures Pow2(m) < Pow2(n)
  {
    if m + 1 < n {
      Pow2Grows(m, n - 1);
    }
  }

  /** Networks with the same addresses are the same once the bits behind the mask are cleared. */
  lemma SameAddressesSameNetwork(p: Prefix, q: Prefix)
    requires Valid(p) && Valid(q) && forall a: nat :: Contains(p, a) <==> Contains(q, a)
    ensures Masked(p) == Masked(q)
  {
    hide Pow2, Masked, Contains;
    var a, b := Masked(p).addr, Masked(q).addr;
    var lastA: nat, lastB: nat := a + Size(p) - 1, b + Size(q) - 1;
    forall x: nat
      ensures Contains(p, x) <==> a <= x < a + Size(p)
      ensures Contains(q, x) <==> b <= x < b + Size(q)
    {
      MaskedIsRange(p, x);
      MaskedIsRange(q, x);
    }
    assert Contains(p, a) && Contains(q, b) && Contains(p, lastA) && Contains(q, lastB);
    assert a == b && Size(p) == Size(q);
    if p.bits != q.bits {
      Pow2Grows(if p.bits < q.bits then 32 - q.bits else 32 - p.bits,
                if p.bits < q.bits then 32 - p.bits else 32 - q.bits);
    }
    MaskedBits(p);
    MaskedBits(q);
  }

  lemma MaskedBits(p: Prefix)
    requires Valid(p)
    ensures Masked(p).bits == p.bits
  {
  }

  /** The one spelling of an entry: its first address and its length, or the text itself if it is no network. */
  function Spelled(value: string): string {
    var p := ParseDiscoveryPrefix(value);
    if p.Some? then AddrText(Masked(p.value).addr) + "/" + Decimal(p.value.bits) else TrimSpace(value)
  }

  lemma CanonicalTextIsSpelled(value: string)
    ensures CanonicalText(TrimSpace(value)) == Spelled(value)
  {
    hide ParseAddr, ParsePrefix, AddrText, TrimSpace, Decimal;
    var text := TrimSpace(value);
    if ParseAddr(text).Some? {
      WholeAddress(ParseAddr(text).value);
    } else if ParsePrefix(text).Some? {
      MaskedIsRange(ParsePrefix(text).value, 0);
      MaskedBits(ParsePrefix(text).value);
    }
  }

  lemma WholeAddress(a: nat)
    requires a < ADDRESSES
    ensures Masked(Prefix(a, 32)) == Prefix(a, 32)
  {
    assert Pow2(0) == 1;
  }

  /** The list holds exactly the spellings of the entries that are not blank. */
  lemma {:induction false} CanonicalHoldsExactly(values: seq<string>, text: string)
    ensures text in Canonical(values) <==>
            exists i :: 0 <= i < |values| && TrimSpace(values[i]) != "" && text == Spelled(values[i])
  {
    hide Spelled, TrimSpace, CanonicalText;
    if values != [] {
      var n := |values| - 1;
      CanonicalHoldsExactly(values[..n], text);
      CanonicalTextIsSpelled(values[n]);
      assert forall i | 0 <= i < n :: values[..n][i] == values[i];
    }
  }

  /** An entry that would not be rewritten is spelled by its network. */
  lemma FormIsSpelling(text: string)
    requires InForm(text) && ParseDiscoveryPrefix(text).Some?
    ensures var p := ParseDiscoveryPrefix(text).value; Masked(p) == p && text == PrefixText(p)
  {
    hide ParseAddr, ParsePrefix, AddrText, TrimSpace, Decimal, PrefixText, Masked;
    if ParseAddr(text).Some? {
      PrefixRoundTrip(Prefix(ParseAddr(text).value, 32));
    } else {
      MaskedIsRange(ParsePrefix(text).value, 0);
    }
  }

  /** No two entries of the list stand for the same addresses, however they were spelled. */
  lemma NetworksAreListedOnce(values: seq<string>, i: nat, j: nat)
    requires i < |Canonical(values)| && j < |Canonical(values)|
    requires var p := ParseDiscoveryPrefix(Canonical(values)[i]); var q := ParseDiscoveryPrefix(Canonical(values)[j]);
      p.Some? && q.Some? && forall a: nat :: Contains(p.value, a) <==> Contains(q.value, a)
    ensures i == j
  {
    hide ParseDiscoveryPrefix, Contains, InForm, PrefixText, Masked, Canonical;
    var list := Canonical(values);
    CanonicalForm(values);
    SameAddressesSameNetwork(ParseDiscoveryPrefix(list[i]).value, ParseDiscoveryPrefix(list[j]).value);
    FormIsSpelling(list[i]);
    FormIsSpelling(list[j]);
  }
}
