/**
 Positional notation in any base, and base58 as the re-coding of bytes that keeps
 leading zeros as leading `1`s.
 */
module Base58 {
  import opened Wrappers

  predicate Below(ds: seq<nat>, base: nat) { forall i :: 0 <= i < |ds| ==> ds[i] < base }

  /** Most significant digit first; zero is the empty sequence. */
  function Digits(n: nat, base: nat): (ds: seq<nat>)
    requires base >= 2
    ensures Below(ds, base)
    ensures n > 0 ==> ds != [] && ds[0] != 0
    ensures n == 0 ==> ds == []
  {
    if n == 0 then [] else
      assert n / base < n by { QuotientShrinks(n, base); }
      var high := Digits(n / base, base);
      assert high == [] ==> n % base == n by { DivisionIdentity(n, base); }
      high + [n % base]
  }

  lemma MultipleOutgrows(q: nat, base: nat)
    requires base >= 2
    ensures q > 0 ==> q * base > q
  {
  }

  lemma QuotientShrinks(n: nat, base: nat)
    requires base >= 2 && n > 0
    ensures n / base < n
  {
    DivisionIdentity(n, base);
    MultipleOutgrows(n / base, base);
  }

  function Value(ds: seq<nat>, base: nat): nat {
    if ds == [] then 0 else Value(ds[..|ds| - 1], base) * base + ds[|ds| - 1]
  }

  lemma ValueSnoc(ds: seq<nat>, d: nat, base: nat)
    ensures Value(ds + [d], base) == Value(ds, base) * base + d
  {
    assert (ds + [d])[..|ds|] == ds;
  }

  lemma DivisionIdentity(n: nat, base: nat)
    requires base >= 2
    ensures (n / base) * base + n % base == n
  {
  }

  lemma {:induction false} ValueOfDigits(n: nat, base: nat)
    requires base >= 2
    ensures Value(Digits(n, base), base) == n
  {
    if n == 0 {
    } else {
      QuotientShrinks(n, base);
      var q, d := n / base, n % base;
      ValueOfDigits(q, base);
      ValueSnoc(Digits(q, base), d, base);
      DivisionIdentity(n, base);
    }
  }

  lemma MultipleGrows(k: int, base: int)
    requires base > 0
    ensures k >= 1 ==> k * base >= base
    ensures k <= -1 ==> k * base <= -base
  {
  }

  lemma StepDivides(q: nat, base: nat, d: nat)
    requires d < base
    ensures (q * base + d) / base == q && (q * base + d) % base == d
  {
    var n := q * base + d;
    var q', d' := n / base, n % base;
    assert n == q' * base + d';
    assert (q - q') * base == q * base - q' * base;
    MultipleGrows(q - q', base);
  }

  lemma {:induction false} ValuePositive(ds: seq<nat>, base: nat)
    requires base >= 2 && ds != [] && ds[0] != 0
    ensures Value(ds, base) > 0
  {
    if |ds| <= 1 {
    } else {
      ValuePositive(ds[..|ds| - 1], base);
      assert Value(ds[..|ds| - 1], base) * base >= 1;
    }
  }

  lemma {:induction false} DigitsOfValue(ds: seq<nat>, base: nat)
    requires base >= 2 && Below(ds, base) && (ds != [] ==> ds[0] != 0)
    ensures Digits(Value(ds, base), base) == ds
  {
    if ds == [] {
    } else {
      var high := ds[..|ds| - 1];
      ValuePositive(ds, base);
      DigitsOfValue(high, base);
      assert ds == high + [ds[|ds| - 1]];
      StepDivides(Value(high, base), base, ds[|ds| - 1]);
    }
  }

  function LeadingZeros(ds: seq<nat>): (z: nat)
    ensures z <= |ds|
    ensures forall i :: 0 <= i < z ==> ds[i] == 0
    ensures z < |ds| ==> ds[z] != 0
  {
    if ds != [] && ds[0] == 0 then 1 + LeadingZeros(ds[1..]) else 0
  }

  function Zeros(n: nat): (ds: seq<nat>)
    ensures |ds| == n && forall i :: 0 <= i < n ==> ds[i] == 0
  {
    seq(n, _ => 0)
  }

  /** The same number in another base, leading zeros kept one for one. */
  function Recode(ds: seq<nat>, base: nat, target: nat): (r: seq<nat>)
    requires target >= 2
    ensures Below(r, target)
  {
    var z := LeadingZeros(ds);
    Zeros(z) + Digits(Value(ds[z..], base), target)
  }

  lemma LeadingZerosUnique(ds: seq<nat>, z: nat)
    requires z <= |ds| && (forall i :: 0 <= i < z ==> ds[i] == 0) && (z < |ds| ==> ds[z] != 0)
    ensures LeadingZeros(ds) == z
  {
  }

  lemma ZerosThen(z: nat, digits: seq<nat>)
    requires digits != [] ==> digits[0] != 0
    ensures LeadingZeros(Zeros(z) + digits) == z && (Zeros(z) + digits)[z..] == digits
  {
    LeadingZerosUnique(Zeros(z) + digits, z);
  }

  /** Re-coding keeps the number and the leading zeros, and adds none. */
  lemma RecodeKeeps(ds: seq<nat>, base: nat, target: nat)
    requires base >= 2 && target >= 2 && Below(ds, base)
    ensures var r, z := Recode(ds, base, target), LeadingZeros(ds);
            LeadingZeros(r) == z && z <= |r| && Value(r[z..], target) == Value(ds[z..], base)
  {
    var z := LeadingZeros(ds);
    ZerosThen(z, Digits(Value(ds[z..], base), target));
    ValueOfDigits(Value(ds[z..], base), target);
  }

  /** Re-coding back restores every digit, so base58 loses nothing. */
  lemma RecodeInverse(ds: seq<nat>, base: nat, target: nat)
    requires base >= 2 && target >= 2 && Below(ds, base)
    ensures Recode(Recode(ds, base, target), target, base) == ds
  {
    var z := LeadingZeros(ds);
    var n := Value(ds[z..], base);
    ZerosThen(z, Digits(n, target));
    ValueOfDigits(n, target);
    assert Digits(n, base) == ds[z..] by { DigitsOfValue(ds[z..], base); }
    assert ds == Zeros(z) + ds[z..];
  }

  // --------------------------------------------------------------- alphabet

  /** `123456789ABCDEFGHJKLMNPQRSTUVWXYZabcdefghijkmnopqrstuvwxyz` */
  function Letter(d: nat): char
    requires d < 58
  {
    if d < 9 then ('1' as int + d) as char
    else if d < 17 then ('A' as int + (d - 9)) as char
    else if d < 22 then ('J' as int + (d - 17)) as char
    else if d < 33 then ('P' as int + (d - 22)) as char
    else if d < 44 then ('a' as int + (d - 33)) as char
    else ('m' as int + (d - 44)) as char
  }

  function DigitOf(c: char): (r: Option<nat>)
    ensures r.Some? ==> r.value < 58 && Letter(r.value) == c
    ensures forall d: nat :: d < 58 && Letter(d) == c ==> r == Some(d)
  {
    if '1' <= c <= '9' then Some(c as int - '1' as int)
    else if 'A' <= c <= 'H' then Some(c as int - 'A' as int + 9)
    else if 'J' <= c <= 'N' then Some(c as int - 'J' as int + 17)
    else if 'P' <= c <= 'Z' then Some(c as int - 'P' as int + 22)
    else if 'a' <= c <= 'k' then Some(c as int - 'a' as int + 33)
    else if 'm' <= c <= 'z' then Some(c as int - 'm' as int + 44)
    else None
  }

  /**
   Which alphabet that is: the ASCII letters and digits without `0`, `O`, `I` and `l`, counted
   in ASCII order.
   */
  lemma AlphabetIs(c: char, d: nat, e: nat)
    requires d < 58 && e < 58
    ensures DigitOf(c).Some? <==>
            ('0' <= c <= '9' || 'A' <= c <= 'Z' || 'a' <= c <= 'z') && c != '0' && c != 'O' && c != 'I' && c != 'l'
    ensures Letter(d) < Letter(e) <==> d < e
  {
  }

  function Spell(ds: seq<nat>): (s: string)
    requires Below(ds, 58)
    ensures |s| == |ds| && forall i :: 0 <= i < |ds| ==> s[i] == Letter(ds[i])
  {
    seq(|ds|, i requires 0 <= i < |ds| => Letter(ds[i]))
  }

  /** The digits of a string over the alphabet; any other character is an error. */
  function Unspell(s: string): (r: Option<seq<nat>>)
    ensures r.Some? ==> Below(r.value, 58) && Spell(r.value) == s
    ensures r.None? <==> exists i :: 0 <= i < |s| && DigitOf(s[i]).None?
  {
    if forall i :: 0 <= i < |s| ==> DigitOf(s[i]).Some? then
      var ds := seq(|s|, i requires 0 <= i < |s| && DigitOf(s[i]).Some? => DigitOf(s[i]).value);
      assert Spell(ds) == s;
      Some(ds)
    else None
  }

  lemma UnspellSpell(ds: seq<nat>)
    requires Below(ds, 58)
    ensures Unspell(Spell(ds)) == Some(ds)
  {
    var s := Spell(ds);
    forall i | 0 <= i < |s| ensures DigitOf(s[i]) == Some(ds[i]) {
      assert s[i] == Letter(ds[i]);
    }
    assert Unspell(s).value == ds;
  }
}
