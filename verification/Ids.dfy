/** Time-sortable identifiers: base-32 text of sixteen bytes behind a prefix.
    Text is bytes, one to a `char`. */
module Identifiers {
  import opened Options
  import opened Powers

  const ALPHABET: string := "0123456789ABCDEFGHJKMNPQRSTVWXYZ"

  // ----- numerals -----

  predicate Digits(base: nat, s: seq<nat>) {
    forall i | 0 <= i < |s| :: s[i] < base
  }

  /** The number the digits spell, most significant first. */
  function Number(base: nat, s: seq<nat>): nat {
    if s == [] then 0 else Number(base, s[..|s| - 1]) * base + s[|s| - 1]
  }

  /** Of equally long sequences, the one smaller where they first differ. */
  predicate Before(a: seq<nat>, b: seq<nat>) {
    exists i | 0 <= i < |a| && i < |b| :: a[..i] == b[..i] && a[i] < b[i]
  }

  lemma StepUp(base: nat, m: nat, n: nat)
    requires m < n
    ensures m * base + base <= n * base
  {
    var d := n - m - 1;
    assert n * base == (m + 1 + d) * base == m * base + base + d * base;
    assert d * base >= 0;
  }

  lemma SmallerPrefix(base: nat, m: nat, x: nat, n: nat, y: nat)
    requires x < base && y < base
    ensures m < n ==> m * base + x < n * base + y
    ensures m * base + x == n * base + y <==> m == n && x == y
  {
    if m < n {
      StepUp(base, m, n);
    } else if n < m {
      StepUp(base, n, m);
    }
  }

  /** Numerals of one length are ordered as the numbers they spell, so no two of
      them spell one number. */
  lemma {:induction false} NumeralsAreOrdered(base: nat, a: seq<nat>, b: seq<nat>)
    requires Digits(base, a) && Digits(base, b) && |a| == |b|
    ensures Before(a, b) <==> Number(base, a) < Number(base, b)
    ensures a == b <==> Number(base, a) == Number(base, b)
  {
    if a != [] {
      var n := |a| - 1;
      var u, v := a[..n], b[..n];
      NumeralsAreOrdered(base, u, v);
      SmallerPrefix(base, Number(base, u), a[n], Number(base, v), b[n]);
      SmallerPrefix(base, Number(base, v), b[n], Number(base, u), a[n]);
      assert a == u + [a[n]] && b == v + [b[n]];
      BeforeSnoc(u, v, a[n], b[n]);
    }
  }

  lemma BeforeSnoc(u: seq<nat>, v: seq<nat>, x: nat, y: nat)
    requires |u| == |v|
    ensures Before(u + [x], v + [y]) <==> Before(u, v) || (u == v && x < y)
  {
    var a, b := u + [x], v + [y];
    forall i | 0 <= i <= |u|
      ensures a[..i] == u[..i] && b[..i] == v[..i]
    {
    }
    if Before(u, v) {
      var i :| 0 <= i < |u| && u[..i] == v[..i] && u[i] < v[i];
      assert a[..i] == b[..i] && a[i] < b[i];
    } else if u == v && x < y {
      assert a[..|u|] == b[..|u|] && a[|u|] < b[|u|];
    }
    if Before(a, b) {
      var i :| 0 <= i < |a| && i < |b| && a[..i] == b[..i] && a[i] < b[i];
      if i < |u| {
        assert u[..i] == v[..i] && u[i] < v[i];
      } else {
        assert u == u[..i] && v == v[..i];
      }
    }
  }

  function Power(base: nat, n: nat): nat {
    if n == 0 then 1 else Power(base, n - 1) * base
  }

  lemma {:induction false} NumberIsBounded(base: nat, s: seq<nat>)
    requires Digits(base, s)
    ensures Number(base, s) < Power(base, |s|)
  {
    if s != [] {
      var init := s[..|s| - 1];
      NumberIsBounded(base, init);
      StepUp(base, Number(base, init), Power(base, |init|));
    }
  }

  /** The `n` digits of a number. */
  function Numeral(base: nat, n: nat, value: nat): (s: seq<nat>)
    requires base > 0
    ensures |s| == n && Digits(base, s)
  {
    if n == 0 then [] else Numeral(base, n - 1, value / base) + [value % base]
  }

  lemma QuotientIsBounded(x: nat, base: nat, p: nat)
    requires base > 0 && x < p * base
    ensures x / base < p && x == x / base * base + x % base
  {
    var q := x / base;
    if p < q {
      StepUp(base, p, q);
    }
  }

  lemma {:induction false} NumeralSpells(base: nat, n: nat, value: nat)
    requires base > 0 && value < Power(base, n)
    ensures Number(base, Numeral(base, n, value)) == value
  {
    if n > 0 {
      QuotientIsBounded(value, base, Power(base, n - 1));
      NumeralSpells(base, n - 1, value / base);
      AppendDigit(base, Numeral(base, n - 1, value / base), value % base);
    }
  }

  lemma AppendDigit(base: nat, s: seq<nat>, d: nat)
    ensures Number(base, s + [d]) == Number(base, s) * base + d
  {
    assert (s + [d])[..|s|] == s;
  }

  // ----- the encoder -----

  /** The letters of base-32 digits. */
  function Letters(digits: seq<nat>): (text: string)
    requires Digits(32, digits)
    ensures |text| == |digits| && forall i | 0 <= i < |text| :: text[i] == ALPHABET[digits[i]]
  {
    seq(|digits|, i requires 0 <= i < |digits| => ALPHABET[digits[i]])
  }

  /** The alphabet is in the order of its character codes, so letters compare
      as the digits they stand for. */
  lemma AlphabetAscends()
    ensures |ALPHABET| == 32 && forall i, j | 0 <= i < j < 32 :: ALPHABET[i] < ALPHABET[j]
  {
    assert forall i | 0 <= i < 31 :: ALPHABET[i] < ALPHABET[i + 1];
    forall i, j | 0 <= i < j < 32
      ensures ALPHABET[i] < ALPHABET[j]
    {
      AscendsBetween(i, j);
    }
  }

  /** It has digits, and capitals that are not mistaken for others: being ascending,
      all of them. */
  lemma AlphabetIsUnambiguous(i: nat)
    requires i < |ALPHABET|
    ensures '0' <= ALPHABET[i] <= '9' || ('A' <= ALPHABET[i] <= 'Z' && ALPHABET[i] !in "ILOU")
  {
  }

  lemma {:induction false} AscendsBetween(i: nat, j: nat)
    requires i < j < |ALPHABET| && forall k | 0 <= k < |ALPHABET| - 1 :: ALPHABET[k] < ALPHABET[k + 1]
    ensures ALPHABET[i] < ALPHABET[j]
  {
    hide ALPHABET;
    if i + 1 < j {
      AscendsBetween(i, j - 1);
    }
  }

  /** The last `held` bits taken in have not been written out. */
  predicate Pending(raw: seq<nat>, k: nat, digits: seq<nat>, bits: nat, held: nat) {
    && k <= |raw| && held <= 12 && 8 * k == 5 * |digits| + held
    && Digits(32, digits)
    && Number(256, raw[..k]) == Number(32, digits) * Pow2(held) + bits % Pow2(held)
  }

  /** Writing five of the bits held. */
  lemma WriteKeeps(raw: seq<nat>, k: nat, digits: seq<nat>, bits: nat, held: nat)
    requires Pending(raw, k, digits, bits, held) && held >= 5
    ensures Pending(raw, k, digits + [bits / Pow2(held - 5) % 32], bits, held - 5)
  {
    var p := Pow2(held - 5);
    var d := bits / p % 32;
    Pow2Shifts(held - 5);
    SplitModulo(bits, p);
    assert (digits + [d])[..|digits|] == digits;
    var n := Number(32, digits);
    Distribute(n, d, p);
  }

  lemma Distribute(n: nat, d: nat, p: nat)
    ensures (n * 32 + d) * p == n * (32 * p) + d * p
  {
  }

  lemma SplitModulo(x: nat, p: nat)
    requires p > 0
    ensures x % (32 * p) == (x / p % 32) * p + x % p
  {
    var q, r := x / p, x % p;
    var s, t := q / 32, q % 32;
    assert x == q * p + r && q == 32 * s + t;
    assert (32 * s + t) * p == s * (32 * p) + t * p;
    assert t * p <= 31 * p by { TimesGrows(p, t, 31); }
    RemainderIs(x, 32 * p, s, t * p + r);
  }

  lemma RemainderIs(x: nat, m: nat, q: nat, r: nat)
    requires m > 0 && x == q * m + r && r < m
    ensures x % m == r
  {
    var a, b := x / m, x % m;
    assert x == a * m + b;
    if a < q {
      StepUp(m, a, q);
    } else if q < a {
      StepUp(m, q, a);
    }
  }

  /** Taking in a byte. Thirty-two bits are more than are ever held. */
  lemma TakeKeeps(raw: seq<nat>, k: nat, digits: seq<nat>, bits: nat, held: nat)
    requires Pending(raw, k, digits, bits, held) && held < 5 && k < |raw| && Digits(256, raw)
    ensures Pending(raw, k + 1, digits, bits * 256 % 0x1_0000_0000 + raw[k], held + 8)
  {
    var after := bits * 256 % 0x1_0000_0000 + raw[k];
    assert raw[..k + 1][..k] == raw[..k];
    var n, p := Number(32, digits), Pow2(held);
    Pow2Shifts(held);
    ShiftIn(bits, raw[k], held);
    assert (n * p + bits % p) * 256 == n * (256 * p) + (bits % p) * 256;
  }

  lemma PowersUpTo12()
    ensures Pow2(0) == 1 && Pow2(1) == 2 && Pow2(2) == 4 && Pow2(3) == 8 && Pow2(4) == 16
    ensures Pow2(8) == 256 && Pow2(9) == 512 && Pow2(10) == 1024 && Pow2(11) == 2048 && Pow2(12) == 4096
  {
    Pow2Shifts(0);
    Pow2Shifts(1);
    Pow2Shifts(2);
    Pow2Shifts(3);
    Pow2Shifts(4);
  }

  lemma ShiftIn(bits: nat, byte: nat, held: nat)
    requires byte < 256 && held < 5
    ensures (bits * 256 % 0x1_0000_0000 + byte) % Pow2(held + 8) == bits % Pow2(held) * 256 + byte
  {
    Pow2Shifts(held);
    PowersTo24(held);
    RemainderIs(bits * 256, 0x1_0000_0000, bits / 0x100_0000, bits % 0x100_0000 * 256);
    RemainderOfRemainder(bits, Pow2(held), Pow2(24 - held));
    AppendByte(bits % 0x100_0000, byte, Pow2(held));
  }

  lemma RemainderOfRemainder(x: nat, p: nat, c: nat)
    requires p > 0 && c > 0 && c * p == 0x100_0000
    ensures x % 0x100_0000 % p == x % p
  {
    var q, kept := x / 0x100_0000, x % 0x100_0000;
    DivideBy(kept, p);
    var s := kept / p;
    assert q * (c * p) == q * c * p;
    assert (q * c + s) * p == q * c * p + s * p;
    RemainderIs(x, p, q * c + s, kept % p);
  }

  lemma AppendByte(x: nat, byte: nat, p: nat)
    requires p > 0 && byte < 256
    ensures (x * 256 + byte) % (256 * p) == x % p * 256 + byte
  {
    DivideBy(x, p);
    var s := x / p;
    assert s * p * 256 == s * (256 * p);
    RemainderIs(x * 256 + byte, 256 * p, s, x % p * 256 + byte);
  }

  lemma DivideBy(x: nat, p: nat)
    requires p > 0
    ensures x == x / p * p + x % p && x % p < p
  {
  }

  lemma PowersTo24(n: nat)
    requires n < 5
    ensures Pow2(24 - n) * Pow2(n) == 0x100_0000
  {
    Pow2Shifts(0);
    Pow2Shifts(8);
    Pow2Shifts(16);
    assert Pow2(24) == 2 * Pow2(23) == 4 * Pow2(22);
    assert Pow2(22) == 2 * Pow2(21) == 4 * Pow2(20);
    PowersUpTo12();
  }

  /** Twenty-six letters: the sixteen bytes as one number, two zero bits added
      at its end. */
  function Encoded(raw: seq<nat>): string
    requires Digits(256, raw) && |raw| == 16
  {
    Letters(Numeral(32, 26, Number(256, raw) * 4))
  }

  /** Base 32 of sixteen bytes, most significant bit first. */
  method EncodeInto(raw: seq<nat>, out0: string) returns (out: string)
    requires Digits(256, raw) && |raw| == 16
    ensures out == out0 + Encoded(raw)
  {
    hide Pending, Letters, ALPHABET, Pow2;
    AlphabetAscends();
    out := out0;
    var bits: nat, held: nat := 0, 0;
    ghost var digits: seq<nat> := [];
    assert Pending(raw, 0, digits, bits, held) && Letters(digits) == "" by { NothingPending(raw); }
    for k := 0 to 16
      invariant held < 5 && 8 * k == 5 * |digits| + held && Digits(32, digits)
      invariant Pending(raw, k, digits, bits, held) && out == out0 + Letters(digits)
    {
      TakeKeeps(raw, k, digits, bits, held);
      bits := bits * 256 % 0x1_0000_0000 + raw[k];
      held := held + 8;
      while held >= 5
        invariant 8 * (k + 1) == 5 * |digits| + held && Digits(32, digits)
        invariant Pending(raw, k + 1, digits, bits, held) && out == out0 + Letters(digits)
      {
        WriteKeeps(raw, k + 1, digits, bits, held);
        held := held - 5;
        LettersNext(digits, bits / Pow2(held) % 32);
        out := out + [ALPHABET[bits / Pow2(held) % 32]];
        digits := digits + [bits / Pow2(held) % 32];
      }
    }
    LastLetter(raw, digits, bits);
    LettersNext(digits, bits * 4 % 32);
    out := out + [ALPHABET[bits * 4 % 32]];
  }

  lemma NothingPending(raw: seq<nat>)
    ensures Pending(raw, 0, [], 0, 0) && Letters([]) == ""
  {
    assert raw[..0] == [];
  }

  lemma LettersNext(digits: seq<nat>, d: nat)
    requires Digits(32, digits) && d < 32
    ensures Letters(digits + [d]) == Letters(digits) + [ALPHABET[d]]
  {
  }

  lemma LastLetter(raw: seq<nat>, digits: seq<nat>, bits: nat)
    requires |raw| == 16 && Digits(256, raw) && Pending(raw, 16, digits, bits, 3)
    ensures digits + [bits * 4 % 32] == Numeral(32, 26, Number(256, raw) * 4)
  {
    hide Number, Numeral, Power;
    var all := digits + [bits * 4 % 32];
    assert raw[..16] == raw;
    PowersUpTo12();
    AppendDigit(32, digits, bits * 4 % 32);
    RemainderIs(bits * 4, 32, bits / 8, bits % 8 * 4);
    EncodedSpells(raw);
    NumeralsAreOrdered(32, all, Numeral(32, 26, Number(256, raw) * 4));
  }

  /** Ids of one kind compare, as text, as their bytes do; no two raw ids are
      written alike. */
  lemma EncodedIsOrdered(a: seq<nat>, b: seq<nat>)
    requires |a| == 16 && |b| == 16 && Digits(256, a) && Digits(256, b)
    ensures |Encoded(a)| == |Encoded(b)| == 26
    ensures Before(Codes(Encoded(a)), Codes(Encoded(b))) <==> Before(a, b)
    ensures Encoded(a) == Encoded(b) <==> a == b
  {
    var m, n := Number(256, a), Number(256, b);
    EncodedSpells(a);
    EncodedSpells(b);
    var u, v := Numeral(32, 26, m * 4), Numeral(32, 26, n * 4);
    NumeralsAreOrdered(256, a, b);
    NumeralsAreOrdered(32, u, v);
    LettersAreOrdered(u, v);
  }

  lemma EncodedSpells(raw: seq<nat>)
    requires |raw| == 16 && Digits(256, raw)
    ensures Number(32, Numeral(32, 26, Number(256, raw) * 4)) == Number(256, raw) * 4
  {
    NumberIsBounded(256, raw);
    PowerValues();
    NumeralSpells(32, 26, Number(256, raw) * 4);
  }

  lemma {:induction false} PowersOfTwo(n: nat)
    ensures Power(256, n) == Pow2(8 * n) && Power(32, n) == Pow2(5 * n)
  {
    if n > 0 {
      PowersOfTwo(n - 1);
      Pow2Shifts(8 * (n - 1));
      Pow2Shifts(5 * (n - 1));
    }
  }

  lemma Pow2Shifts(n: nat)
    ensures Pow2(n + 2) == 4 * Pow2(n) && Pow2(n + 5) == 32 * Pow2(n) && Pow2(n + 8) == 256 * Pow2(n)
  {
    assert Pow2(n + 2) == 2 * Pow2(n + 1);
    assert Pow2(n + 4) == 2 * Pow2(n + 3) == 4 * Pow2(n + 2);
    assert Pow2(n + 5) == 2 * Pow2(n + 4);
    assert Pow2(n + 7) == 2 * Pow2(n + 6) == 4 * Pow2(n + 5);
  }

  lemma PowerValues()
    ensures Power(256, 16) * 4 == Power(32, 26)
  {
    PowersOfTwo(16);
    PowersOfTwo(26);
    Pow2Shifts(128);
  }

  function Codes(text: string): (codes: seq<nat>)
    ensures |codes| == |text| && forall i | 0 <= i < |text| :: codes[i] == text[i] as int
  {
    seq(|text|, i requires 0 <= i < |text| => text[i] as int)
  }

  lemma LettersAreOrdered(u: seq<nat>, v: seq<nat>)
    requires Digits(32, u) && Digits(32, v) && |u| == |v|
    ensures Before(Codes(Letters(u)), Codes(Letters(v))) <==> Before(u, v)
    ensures Letters(u) == Letters(v) <==> u == v
  {
    hide ALPHABET;
    AlphabetAscends();
  }

  // ----- ids -----

  datatype Kind = Application | Endpoint | Message | Delivery | Attempt | Secret | ApiKey

  function Prefix(kind: Kind): string {
    match kind
    case Application => "app" case Endpoint => "ep" case Message => "msg" case Delivery => "dlv"
    case Attempt => "att" case Secret => "sec" case ApiKey => "key"
  }

  function FromPrefix(s: string): Option<Kind> {
    if s == "app" then Some(Application)
    else if s == "ep" then Some(Endpoint)
    else if s == "msg" then Some(Message)
    else if s == "dlv" then Some(Delivery)
    else if s == "att" then Some(Attempt)
    else if s == "sec" then Some(Secret)
    else if s == "key" then Some(ApiKey)
    else None
  }

  lemma PrefixReadsBack(kind: Kind)
    ensures FromPrefix(Prefix(kind)) == Some(kind) && '_' !in Prefix(kind)
  {
  }

  /** An id stamped with a time: the low 48 bits of its milliseconds, most
      significant byte first, then ten random bytes. */
  method NewAt(kind: Kind, millis: int, random: seq<nat>) returns (id: string)
    requires Digits(256, random) && |random| == 10
    ensures id == Prefix(kind) + "_" + Encoded(Stamped(millis, random))
  {
    var raw := Stamped(millis, random);
    id := EncodeInto(raw, Prefix(kind) + "_");
  }

  function Stamped(millis: int, random: seq<nat>): (raw: seq<nat>)
    requires Digits(256, random) && |random| == 10
    ensures |raw| == 16 && Digits(256, raw)
  {
    var unsigned: nat := if millis < 0 then 0 else millis;
    Numeral(256, 8, unsigned)[2..] + random
  }

  /** Where the first underscore is. */
  function Underscore(id: string): (at: Option<nat>)
    ensures at.None? ==> '_' !in id
    ensures at.Some? ==> at.value < |id| && id[at.value] == '_' && '_' !in id[..at.value]
  {
    if id == "" then None
    else if id[0] == '_' then Some(0)
    else
      var rest := Underscore(id[1..]);
      assert rest.Some? ==> id[..rest.value + 1] == [id[0]] + id[1..][..rest.value];
      if rest.None? then None else Some(rest.value + 1)
  }

  lemma {:induction false} FirstUnderscore(id: string, n: nat)
    requires n < |id| && id[n] == '_' && forall k | 0 <= k < n :: id[k] != '_'
    ensures Underscore(id) == Some(n)
  {
    if n > 0 {
      FirstUnderscore(id[1..], n - 1);
    }
  }

  predicate IsLetter(c: char) {
    c in ALPHABET
  }

  /** A well-formed id of the kind. */
  predicate IsId(kind: Kind, id: string) {
    && Prefix(kind) + "_" <= id
    && |id| == |Prefix(kind)| + 27
    && (forall i | |Prefix(kind)| < i < |id| :: IsLetter(id[i]))
  }

  /** The kind whose prefix the text carries, provided the rest is as its ids are. */
  function KindOf(id: string): Option<Kind> {
    var at := Underscore(id);
    if at.None? then None
    else
      var kind := FromPrefix(id[..at.value]);
      if kind.None? || !IsId(kind.value, id) then None else kind
  }

  /** A text is a well-formed id of the kind found in it, and of no other. */
  lemma KindIsExact(kind: Kind, id: string)
    ensures KindOf(id) == Some(kind) <==> IsId(kind, id)
  {
    hide FromPrefix, Prefix, IsLetter;
    PrefixReadsBack(kind);
    if IsId(kind, id) {
      var p := Prefix(kind);
      assert id[|p|] == (p + "_")[|p|] == '_';
      assert id[..|p|] == (p + "_")[..|p|] == p;
      forall k | 0 <= k < |p|
        ensures id[k] != '_'
      {
        assert id[k] == p[k] && p[k] in p;
      }
      FirstUnderscore(id, |p|);
    }
  }

  /** Every id made is well formed, of the kind it was made for. */
  lemma NewIsWellFormed(kind: Kind, millis: int, random: seq<nat>)
    requires Digits(256, random) && |random| == 10
    ensures KindOf(Prefix(kind) + "_" + Encoded(Stamped(millis, random))) == Some(kind)
  {
    hide Prefix;
    AlphabetAscends();
    var id := Prefix(kind) + "_" + Encoded(Stamped(millis, random));
    KindIsExact(kind, id);
  }

  /** The digit a letter stands for. */
  function DigitOf(c: char): (d: Option<nat>)
    ensures d.Some? <==> IsLetter(c)
    ensures d.Some? ==> d.value < 32 && ALPHABET[d.value] == c
  {
    LetterAt(ALPHABET, c, 0)
  }

  function LetterAt(alphabet: string, c: char, from: nat): (d: Option<nat>)
    requires from <= |alphabet|
    ensures d.Some? <==> c in alphabet[from..]
    ensures d.Some? ==> from <= d.value < |alphabet| && alphabet[d.value] == c
    decreases |alphabet| - from
  {
    if from == |alphabet| then None
    else if alphabet[from] == c then Some(from)
    else
      assert alphabet[from..] == [alphabet[from]] + alphabet[from + 1..];
      LetterAt(alphabet, c, from + 1)
  }

  lemma DigitOfLetter(d: nat)
    requires d < 32
    ensures IsLetter(ALPHABET[d]) && DigitOf(ALPHABET[d]) == Some(d)
  {
    hide ALPHABET, LetterAt;
    AlphabetAscends();
    assert ALPHABET[d] in ALPHABET;
    var e := DigitOf(ALPHABET[d]).value;
    assert ALPHABET[e] == ALPHABET[d];
  }

  /** The digits of a text, if it is letters throughout. */
  function DigitsOf(text: string): (digits: Option<seq<nat>>)
    ensures digits.Some? ==> Digits(32, digits.value) && |digits.value| == |text|
  {
    if text == "" then Some([])
    else
      var init, last := DigitsOf(text[..|text| - 1]), DigitOf(text[|text| - 1]);
      if init.None? || last.None? then None else Some(init.value + [last.value])
  }

  /** The timestamp in an id: ten letters after the first underscore carry fifty
      bits, the lowest two of them not its own. */
  function TimeIn(id: string): Option<nat> {
    var at := Underscore(id);
    if at.None? || |id| - at.value != 27 then None
    else
      var digits := DigitsOf(id[at.value + 1..at.value + 11]);
      if digits.None? then None else Some(Number(32, digits.value) / 4)
  }

  method TimeOf(id: string) returns (t: Option<nat>)
    ensures t == TimeIn(id)
  {
    hide ALPHABET, LetterAt;
    var at := Underscore(id);
    if at.None? || |id| - at.value != 27 {
      return None;
    }
    var head := id[at.value + 1..at.value + 11];
    var millis: nat := 0;
    ghost var digits: seq<nat> := [];
    for k := 0 to 10
      invariant DigitsOf(head[..k]) == Some(digits) && millis == Number(32, digits)
    {
      assert head[..k + 1][..k] == head[..k];
      var d := DigitOf(head[k]);
      if d.None? {
        NotDigits(head, k + 1);
        return None;
      }
      AppendDigit(32, digits, d.value);
      millis := millis * 32 + d.value;
      digits := digits + [d.value];
    }
    assert head[..10] == head;
    t := Some(millis / 4);
  }

  lemma {:induction false} NotDigits(text: string, k: nat)
    requires k <= |text| && DigitsOf(text[..k]).None?
    ensures DigitsOf(text).None?
    decreases |text|
  {
    if k < |text| {
      assert text[..|text| - 1][..k] == text[..k];
      NotDigits(text[..|text| - 1], k);
    } else {
      assert text[..k] == text;
    }
  }

  lemma LettersOfNothing()
    ensures Letters([]) == ""
  {
  }

  lemma {:induction false} DigitsOfLetters(digits: seq<nat>)
    requires Digits(32, digits)
    ensures DigitsOf(Letters(digits)) == Some(digits)
  {
    hide DigitOf, Letters, ALPHABET;
    AlphabetAscends();
    if digits == [] {
      LettersOfNothing();
    } else {
      var n := |digits| - 1;
      DigitsOfLetters(digits[..n]);
      assert digits == digits[..n] + [digits[n]];
      LettersNext(digits[..n], digits[n]);
      var text := Letters(digits[..n]);
      assert (text + [ALPHABET[digits[n]]])[..n] == text;
      DigitOfLetter(digits[n]);
    }
  }

  lemma {:induction false} NumberSplits(base: nat, s: seq<nat>, k: nat)
    requires k <= |s|
    ensures Number(base, s) == Number(base, s[..k]) * Power(base, |s| - k) + Number(base, s[k..])
    decreases |s|
  {
    if k == |s| {
      assert s[..k] == s && s[k..] == [];
    } else {
      var init := s[..|s| - 1];
      NumberSplits(base, init, k);
      assert init[..k] == s[..k] && init[k..] == s[k..][..|s| - k - 1];
      var a, p, b := Number(base, s[..k]), Power(base, |s| - 1 - k), Number(base, init[k..]);
      Regroup(a, p, b, base);
    }
  }

  lemma Regroup(a: nat, p: nat, b: nat, base: nat)
    ensures (a * p + b) * base == a * (p * base) + b * base
  {
  }

  /** The first ten letters hold the first six bytes, four times over and a
      little more. */
  lemma TenLettersHoldSixBytes(raw: seq<nat>)
    requires |raw| == 16 && Digits(256, raw)
    ensures Number(32, Numeral(32, 26, Number(256, raw) * 4)[..10]) / 4 == Number(256, raw[..6])
  {
    var digits := Numeral(32, 26, Number(256, raw) * 4);
    EncodedSpells(raw);
    NumberSplits(32, digits, 10);
    NumberSplits(256, raw, 6);
    NumberIsBounded(32, digits[10..]);
    NumberIsBounded(256, raw[6..]);
    PowersOfTwo(16);
    PowersOfTwo(10);
    HighPart(Number(32, digits[..10]), Number(32, digits[10..]), Number(256, raw[..6]), Number(256, raw[6..]),
             Pow2(80));
  }

  lemma HighPart(a: nat, b: nat, t: nat, r: nat, p: nat)
    requires b < p && r < p && a * p + b == (t * p + r) * 4
    ensures a / 4 == t
  {
    assert (t * p + r) * 4 == (4 * t) * p + 4 * r;
    if a < 4 * t {
      StepUp(p, a, 4 * t);
    } else if a >= 4 * t + 4 {
      assert (4 * t + 4) * p == (4 * t) * p + 4 * p;
      TimesGrows(p, 4 * t + 4, a);
    }
  }

  /** The time stamped on an id is read back exactly when it fits forty-eight
      bits: what is read is the time, negatives as zero, modulo 2^48. */
  lemma TimeReadsBack(kind: Kind, millis: int, random: seq<nat>)
    requires Digits(256, random) && |random| == 10
    ensures var id := Prefix(kind) + "_" + Encoded(Stamped(millis, random));
            && TimeIn(id) == Some((if millis < 0 then 0 else millis) % 0x1_0000_0000_0000)
            && (TimeIn(id) == Some(millis) <==> 0 <= millis < 0x1_0000_0000_0000)
  {
    hide Prefix, Encoded, TimeIn;
    var raw := Stamped(millis, random);
    TimeInId(kind, raw);
    StampIsTime(millis, random);
  }

  lemma TimeInId(kind: Kind, raw: seq<nat>)
    requires |raw| == 16 && Digits(256, raw)
    ensures TimeIn(Prefix(kind) + "_" + Encoded(raw)) == Some(Number(256, raw[..6]))
  {
    hide Prefix, ALPHABET, Number, Numeral, DigitsOf;
    var digits := Numeral(32, 26, Number(256, raw) * 4);
    var id := Prefix(kind) + "_" + Encoded(raw);
    UnderscoreAfterPrefix(kind, Encoded(raw));
    var n := |Prefix(kind)|;
    assert id[n + 1..n + 11] == Letters(digits[..10]);
    DigitsOfLetters(digits[..10]);
    TenLettersHoldSixBytes(raw);
  }

  lemma UnderscoreAfterPrefix(kind: Kind, text: string)
    ensures Underscore(Prefix(kind) + "_" + text) == Some(|Prefix(kind)|)
  {
    hide Prefix;
    PrefixReadsBack(kind);
    var p := Prefix(kind);
    var id := p + "_" + text;
    forall k | 0 <= k < |p|
      ensures id[k] != '_'
    {
      assert id[k] == p[k] && p[k] in p;
    }
    FirstUnderscore(id, |p|);
  }

  lemma StampIsTime(millis: int, random: seq<nat>)
    requires Digits(256, random) && |random| == 10
    ensures Number(256, Stamped(millis, random)[..6]) == (if millis < 0 then 0 else millis) % 0x1_0000_0000_0000
  {
    var unsigned: nat := if millis < 0 then 0 else millis;
    assert Stamped(millis, random)[..6] == Numeral(256, 8, unsigned)[2..];
    LowDigits(unsigned);
  }

  /** The last six of eight bytes are the number modulo 2^48. */
  lemma LowDigits(value: nat)
    ensures Number(256, Numeral(256, 8, value)[2..]) == value % 0x1_0000_0000_0000
  {
    NumeralTail(256, 8, 2, value);
    NumeralIsModulo(256, 6, value);
    PowersOfTwo(6);
    Pow2At48();
  }

  lemma Pow2At48()
    ensures Pow2(48) == 0x1_0000_0000_0000
  {
    Pow2Shifts(0);
    Pow2Shifts(8);
    Pow2Shifts(16);
    Pow2Shifts(24);
    Pow2Shifts(32);
    Pow2Shifts(40);
  }

  lemma {:induction false} NumeralTail(base: nat, n: nat, k: nat, value: nat)
    requires base > 0 && k <= n
    ensures Numeral(base, n, value)[k..] == Numeral(base, n - k, value)
    decreases n
  {
    if k < n {
      NumeralTail(base, n - 1, k, value / base);
    }
  }

  lemma {:induction false} NumeralIsModulo(base: nat, n: nat, value: nat)
    requires base > 0
    ensures Power(base, n) > 0 && Number(base, Numeral(base, n, value)) == value % Power(base, n)
  {
    if n == 0 {
      assert value % 1 == 0;
    } else {
      var p := Power(base, n - 1);
      NumeralIsModulo(base, n - 1, value / base);
      AppendDigit(base, Numeral(base, n - 1, value / base), value % base);
      NestedRemainder(value, base, p);
    }
  }

  lemma NestedRemainder(x: nat, base: nat, p: nat)
    requires base > 0 && p > 0
    ensures p * base > 0 && x % (p * base) == x / base % p * base + x % base
  {
    DivideBy(x, base);
    var q := x / base;
    DivideBy(q, p);
    var s, t := q / p, q % p;
    Regroup(s, p, t, base);
    StepUp(base, t, p);
    RemainderIs(x, p * base, s, t * base + x % base);
  }

  /** Ids of one kind sort by the time stamped on them. */
  lemma IdsSortByTime(kind: Kind, a: int, b: int, ra: seq<nat>, rb: seq<nat>)
    requires Digits(256, ra) && |ra| == 10 && Digits(256, rb) && |rb| == 10
    requires 0 <= a < b < 0x1_0000_0000_0000
    ensures Before(Codes(Prefix(kind) + "_" + Encoded(Stamped(a, ra))),
                   Codes(Prefix(kind) + "_" + Encoded(Stamped(b, rb))))
  {
    hide Prefix, Encoded, Stamped, Number;
    var u, v := Stamped(a, ra), Stamped(b, rb);
    StampIsTime(a, ra);
    StampIsTime(b, rb);
    NumeralsAreOrdered(256, u[..6], v[..6]);
    var i :| 0 <= i < 6 && u[..6][..i] == v[..6][..i] && u[..6][i] < v[..6][i];
    assert u[..i] == u[..6][..i] && v[..i] == v[..6][..i];
    assert Before(u, v);
    EncodedIsOrdered(u, v);
    PrefixKeepsOrder(Prefix(kind) + "_", Encoded(u), Encoded(v));
  }

  lemma PrefixKeepsOrder(p: string, a: string, b: string)
    requires Before(Codes(a), Codes(b))
    ensures Before(Codes(p + a), Codes(p + b))
  {
    var i :| 0 <= i < |a| && i < |b| && Codes(a)[..i] == Codes(b)[..i] && Codes(a)[i] < Codes(b)[i];
    forall j | 0 <= j < i
      ensures a[j] == b[j]
    {
      assert Codes(a)[..i][j] == Codes(b)[..i][j];
    }
    var u, v := Codes(p + a), Codes(p + b);
    assert u[..|p| + i] == v[..|p| + i];
    assert u[|p| + i] < v[|p| + i];
  }
}
