/** Inter-exchange client addresses: a base-36 form of account addresses protected by the
    check digits of ISO 13616 (MOD 97-10 of ISO 7064). */
module Icap {

  const TWO_160: nat := 0x1_0000000000_0000000000_0000000000_0000000000

  datatype IcapError = LengthError | EncodingError | ChecksumError | CountryCodeError | AssetIdentError | NotImplemented

  datatype Check = Passes | Fails(error: IcapError)

  datatype Result = Ok(address: nat) | Err(error: IcapError)

  // ---- Characters ----

  predicate IsDigit(c: char) {
    '0' <= c <= '9'
  }

  predicate IsLetter(c: char) {
    'A' <= c <= 'Z'
  }

  predicate Base36Char(c: char) {
    IsDigit(c) || IsLetter(c)
  }

  predicate Valid(s: string) {
    forall i | 0 <= i < |s| :: Base36Char(s[i])
  }

  /** '0' to '9' count 0 to 9, 'A' to 'Z' count 10 to 35. */
  function Code(c: char): (n: int) {
    if c as int >= 65 then c as int - 55 else c as int - 48
  }

  function CharOf(n: nat): (c: char)
    requires n < 36
    ensures Base36Char(c) && Code(c) == n
  {
    if n < 10 then (n + 48) as char else (n + 55) as char
  }

  /** Digits count from zero and are written in decimal with one digit, letters count on from
      ten and take two. */
  lemma {:induction false} AlphabetCodes(c: char)
    requires Base36Char(c)
    ensures Code(c) == if c <= '9' then c as int - '0' as int else 10 + (c as int - 'A' as int)
    ensures 0 <= Code(c) < 36 && Weight(c) == if Code(c) < 10 then 10 else 100
  {
  }

  /** Decimal places a character takes up after expansion. */
  function Weight(c: char): (w: nat) {
    if c as int >= 65 then 100 else 10
  }

  // ---- Numbers read from strings ----

  /** A string read in the given base. */
  function ValueIn(base: nat, s: string): (n: int) {
    if s == [] then 0 else ValueIn(base, s[..|s| - 1]) * base + Code(s[|s| - 1])
  }

  /** The string read as the decimal number its characters expand to. */
  ghost function Num(s: string): (n: int) {
    if s == [] then 0 else Num(s[..|s| - 1]) * Weight(s[|s| - 1]) + Code(s[|s| - 1])
  }

  /** The power of ten a string shifts what stands before it by. */
  ghost function Shift(s: string): (n: nat) {
    if s == [] then 1 else Shift(s[..|s| - 1]) * Weight(s[|s| - 1])
  }

  lemma {:induction false} Distribute(x: int, y: int, z: int, w: int)
    ensures (x * y + z) * w == x * (y * w) + z * w
  {
    assert (x * y) * w == x * (y * w);
  }

  lemma {:induction false} NumSnoc(s: string, c: char)
    ensures Num(s + [c]) == Num(s) * Weight(c) + Code(c)
    ensures Shift(s + [c]) == Shift(s) * Weight(c)
  {
    assert (s + [c])[..|s|] == s;
  }

  lemma {:induction false} NumJoin(a: string, b: string)
    ensures Num(a + b) == Num(a) * Shift(b) + Num(b)
  {
    if b == [] {
      assert a + b == a;
    } else {
      var b0, c := b[..|b| - 1], b[|b| - 1];
      NumJoin(a, b0);
      assert a + b == a + b0 + [c];
      NumSnoc(a + b0, c);
      Distribute(Num(a), Shift(b0), Num(b0), Weight(c));
    }
  }

  // ---- Expansion to a decimal literal ----

  function Expanded(s: string): (e: string) {
    if s == [] then [] else Expanded(s[..|s| - 1]) + Expansion(s[|s| - 1])
  }

  function Expansion(c: char): (e: string) {
    if IsLetter(c) then [DigitOf(Code(c) / 10), DigitOf(Code(c) % 10)] else [c]
  }

  function DigitOf(n: nat): (c: char)
    requires n < 10
    ensures IsDigit(c) && Code(c) == n
  {
    (n + 48) as char
  }

  lemma {:induction false} ValueSnoc(base: nat, s: string, c: char)
    ensures ValueIn(base, s + [c]) == ValueIn(base, s) * base + Code(c)
  {
    assert (s + [c])[..|s|] == s;
  }

  lemma {:induction false} TwoMore(e: string, d1: char, d0: char)
    ensures ValueIn(10, e + [d1, d0]) == ValueIn(10, e) * 100 + Code(d1) * 10 + Code(d0)
  {
    ValueSnoc(10, e, d1);
    ValueSnoc(10, e + [d1], d0);
    assert e + [d1, d0] == e + [d1] + [d0];
  }

  lemma {:induction false} ExpansionValue(e: string, c: char)
    requires Base36Char(c)
    ensures ValueIn(10, e + Expansion(c)) == ValueIn(10, e) * Weight(c) + Code(c)
  {
    if IsLetter(c) {
      TwoMore(e, DigitOf(Code(c) / 10), DigitOf(Code(c) % 10));
    } else {
      ValueSnoc(10, e, c);
    }
  }

  /** Reading the expansion in base ten gives the number of the string. */
  lemma {:induction false} ExpandedValue(s: string)
    requires Valid(s)
    ensures ValueIn(10, Expanded(s)) == Num(s)
  {
    if s != [] {
      var n := |s| - 1;
      ExpandedValue(s[..n]);
      ExpansionValue(Expanded(s[..n]), s[n]);
    }
  }

  // ---- Check digits ----

  /** The two check digits in front of `s`. */
  ghost function CheckNumber(s: string): (n: int) {
    98 - Num(s + "XE00") % 97
  }

  ghost function TwoDigits(n: int): (s: string)
    requires 0 <= n < 100
  {
    [DigitOf(n / 10), DigitOf(n % 10)]
  }

  ghost predicate CheckSumOk(s: string) {
    |s| >= 4 && Num(s[4..] + s[..4]) % 97 == 1
  }

  /** Two digits after "XE" contribute just their value. */
  lemma {:induction false} NumOfTail(enc: string, d1: char, d0: char)
    requires IsDigit(d1) && IsDigit(d0)
    ensures Num(enc + ['X', 'E', d1, d0]) == Num(enc + ['X', 'E']) * 100 + Code(d1) * 10 + Code(d0)
  {
    var e := enc + ['X', 'E'];
    NumSnoc(e, d1);
    NumSnoc(e + [d1], d0);
    assert enc + ['X', 'E', d1, d0] == e + [d1] + [d0];
  }

  lemma {:induction false} ToOne(m: int)
    ensures var n := 98 - m % 97; 2 <= n <= 98 && (m + n) % 97 == 1
  {
    var n := 98 - m % 97;
    assert m + n == 97 * (m / 97 + 1) + 1;
  }

  lemma {:induction false} TailToOne(enc: string, n: int)
    requires 0 <= n < 100
    ensures Num(enc + ['X', 'E', DigitOf(n / 10), DigitOf(n % 10)]) == Num(enc + ['X', 'E', '0', '0']) + n
  {
    NumOfTail(enc, DigitOf(n / 10), DigitOf(n % 10));
    NumOfTail(enc, '0', '0');
  }

  /** The check digits make the rearranged number one modulo 97. */
  lemma {:induction false} CheckDigitsValid(enc: string)
    requires Valid(enc)
    ensures 2 <= CheckNumber(enc) <= 98
    ensures CheckSumOk("XE" + TwoDigits(CheckNumber(enc)) + enc)
  {
    assert "XE00" == ['X', 'E', '0', '0'];
    ToOne(Num(enc + ['X', 'E', '0', '0']));
    var n := CheckNumber(enc);
    TailToOne(enc, n);
    var s := "XE" + TwoDigits(n) + enc;
    assert s[4..] == enc && s[..4] == ['X', 'E', DigitOf(n / 10), DigitOf(n % 10)];
  }

  // ---- Base 36 ----

  ghost function Base36(n: nat): (s: string) {
    if n < 36 then [CharOf(n)] else Base36(n / 36) + [CharOf(n % 36)]
  }

  ghost function Pow36(k: nat): (p: nat) {
    if k == 0 then 1 else 36 * Pow36(k - 1)
  }

  lemma {:induction false} Base36Value(n: nat)
    ensures Valid(Base36(n)) && ValueIn(36, Base36(n)) == n
  {
    if n >= 36 {
      Base36Value(n / 36);
      ValueSnoc(36, Base36(n / 36), CharOf(n % 36));
    } else {
      ValueSnoc(36, [], CharOf(n));
      assert [] + [CharOf(n)] == [CharOf(n)];
    }
  }

  lemma {:induction false} Base36Length(n: nat, k: nat)
    requires k > 0 && n < Pow36(k)
    ensures 1 <= |Base36(n)| <= k
  {
    if n >= 36 {
      Base36Length(n / 36, k - 1);
    }
  }

  /** An address takes at most 31 base-36 digits. */
  lemma {:induction false} AddressLength(n: nat)
    requires n < TWO_160
    ensures 1 <= |Base36(n)| <= 31
  {
    assert Pow36(31) > TWO_160 by {
      assert Pow36(8) == 2821109907456;
      assert Pow36(16) == 7958661109946400884391936;
      assert Pow36(24) == 22452257707354557240087211123792674816;
    }
    Base36Length(n, 31);
  }

  ghost function Zeros(k: nat): (s: string) {
    seq(k, _ => '0')
  }

  lemma {:induction false} PaddedValue(k: nat, s: string)
    ensures ValueIn(36, Zeros(k) + s) == ValueIn(36, s)
  {
    if s == [] {
      ZerosValue(k);
      assert Zeros(k) + s == Zeros(k);
    } else {
      var n := |s| - 1;
      PaddedValue(k, s[..n]);
      ValueSnoc(36, Zeros(k) + s[..n], s[n]);
      assert Zeros(k) + s == Zeros(k) + s[..n] + [s[n]];
    }
  }

  lemma {:induction false} ZerosValue(k: nat)
    ensures ValueIn(36, Zeros(k)) == 0
  {
    if k > 0 {
      ZerosValue(k - 1);
      ValueSnoc(36, Zeros(k - 1), '0');
      assert Zeros(k) == Zeros(k - 1) + ['0'];
    }
  }

  // ---- Addresses ----

  /** The base-36 form, padded with zeros to 30 characters. */
  ghost function Body(a: nat): (s: string) {
    var enc := Base36(a);
    if |enc| < 30 then Zeros(30 - |enc|) + enc else enc
  }

  ghost function IcapOf(a: nat): (s: string) {
    var n := CheckNumber(Body(a));
    if 0 <= n < 100 then "XE" + TwoDigits(n) + Body(a) else []
  }

  /** What a direct or indirect form decodes to. */
  ghost function Parsed(s: string): (r: Result) {
    if |s| != 34 && |s| != 35 && |s| != 20 then Err(LengthError)
    else if s[..2] != "XE" then Err(CountryCodeError)
    else if |s| == 20 && s[4..7] != "ETH" then Err(AssetIdentError)
    else if !Valid(s) then Err(EncodingError)
    else if !CheckSumOk(s) then Err(ChecksumError)
    else if |s| == 20 then Err(NotImplemented)
    else Ok(ValueIn(36, s[4..]) % TWO_160)
  }

  /** Exactly the strings of 34 or 35 base-36 characters that begin with XE and have a correct
      checksum are addresses; and which rule each error is about. */
  lemma {:induction false} AcceptedIff(s: string)
    ensures var direct, indirect := |s| == 34 || |s| == 35, |s| == 20;
            var country := |s| >= 2 && s[0] == 'X' && s[1] == 'E';
            && (Parsed(s).Ok? <==> direct && country && Valid(s) && CheckSumOk(s))
            && (Parsed(s) == Err(LengthError) <==> !direct && !indirect)
            && (Parsed(s) == Err(CountryCodeError) <==> (direct || indirect) && !country)
            && (Parsed(s) == Err(AssetIdentError)
                <==> indirect && country && !(s[4] == 'E' && s[5] == 'T' && s[6] == 'H'))
            && (direct && country ==> (Parsed(s) == Err(EncodingError) <==> !Valid(s)))
            && (direct && country && Valid(s) ==> (Parsed(s) == Err(ChecksumError) <==> !CheckSumOk(s)))
            && (Parsed(s).Ok? ==> Parsed(s).address == ValueIn(36, s[4..]) % TWO_160)
  {
    if |s| >= 2 {
      assert s[..2] == [s[0], s[1]];
    }
    if |s| == 20 {
      assert s[4..7] == [s[4], s[5], s[6]];
    }
  }

  lemma {:induction false} BodyShape(a: nat)
    requires a < TWO_160
    ensures Valid(Body(a)) && 30 <= |Body(a)| <= 31 && ValueIn(36, Body(a)) == a
  {
    Base36Value(a);
    AddressLength(a);
    if |Base36(a)| < 30 {
      PaddedValue(30 - |Base36(a)|, Base36(a));
    }
  }

  /** Every address survives the round trip, in 34 or 35 characters. */
  lemma {:induction false} RoundTrip(a: nat)
    requires a < TWO_160
    ensures |IcapOf(a)| in {34, 35} && Parsed(IcapOf(a)) == Ok(a)
  {
    BodyShape(a);
    var body := Body(a);
    CheckDigitsValid(body);
    var cd := TwoDigits(CheckNumber(body));
    var s := IcapOf(a);
    assert s[4..] == body && s[..2] == "XE";
    assert Valid(s) by {
      assert s == "XE" + cd + body;
      assert IsDigit(cd[0]) && IsDigit(cd[1]);
    }
  }

  // ---- Detecting a wrong character ----

  /** Ten has an inverse modulo 97. */
  lemma {:induction false} CancelTen(x: int)
    requires (x * 10) % 97 == 0
    ensures x % 97 == 0
  {
    var q := x * 10 / 97;
    assert x == 97 * (68 * q - 7 * x);
  }

  lemma {:induction false} CancelShift(x: int, s: string)
    requires (x * Shift(s)) % 97 == 0
    ensures x % 97 == 0
  {
    if s == [] {
      assert x * Shift(s) == x;
    } else {
      var s0, w := s[..|s| - 1], Weight(s[|s| - 1]);
      assert x * (Shift(s0) * w) == (x * Shift(s0)) * w;
      var y := x * Shift(s0);
      if w == 100 {
        assert y * 100 == (y * 10) * 10;
        CancelTen(y * 10);
      }
      CancelTen(y);
      CancelShift(x, s0);
    }
  }

  lemma {:induction false} NumAround(a: string, c: char, b: string)
    ensures Num(a + [c] + b) == (Num(a) * Weight(c) + Code(c)) * Shift(b) + Num(b)
  {
    NumJoin(a + [c], b);
    NumSnoc(a, c);
  }

  lemma {:induction false} SameRest(x: int, p: int, q: int, y: int, z: int)
    ensures ((x + p) * y + z) % 97 == ((x + q) * y + z) % 97 ==> ((p - q) * y) % 97 == 0
  {
    var m, n := (x + p) * y + z, (x + q) * y + z;
    assert m - n == (p - q) * y;
    if m % 97 == n % 97 {
      assert m - n == 97 * (m / 97 - n / 97);
    }
  }

  lemma {:induction false} ChangeCounts(x: int, p: int, q: int, b: string, z: int)
    requires p != q && -97 < p - q < 97
    ensures ((x + p) * Shift(b) + z) % 97 != ((x + q) * Shift(b) + z) % 97
  {
    SameRest(x, p, q, Shift(b), z);
    if ((p - q) * Shift(b)) % 97 == 0 {
      CancelShift(p - q, b);
    }
  }

  /** Two strings that differ in one character of the same class never agree modulo 97. */
  lemma {:induction false} ChangeShows(a: string, c: char, d: char, b: string)
    requires c != d && ((IsDigit(c) && IsDigit(d)) || (IsLetter(c) && IsLetter(d)))
    ensures Num(a + [c] + b) % 97 != Num(a + [d] + b) % 97
  {
    NumAround(a, c, b);
    NumAround(a, d, b);
    ChangeCounts(Num(a) * Weight(c), Code(c), Code(d), b, Num(b));
  }

  /** Replacing one character by another of its class breaks a correct checksum. */
  lemma {:induction false} ReplacementRejected(s: string, i: nat, d: char)
    requires CheckSumOk(s) && i < |s|
    requires s[i] != d && ((IsDigit(s[i]) && IsDigit(d)) || (IsLetter(s[i]) && IsLetter(d)))
    ensures !CheckSumOk(s[i := d])
    ensures !Parsed(s[i := d]).Ok?
  {
    var t := s[i := d];
    if i >= 4 {
      assert s[4..] + s[..4] == s[4..i] + [s[i]] + (s[i + 1..] + s[..4]);
      assert t[4..] + t[..4] == s[4..i] + [d] + (s[i + 1..] + s[..4]);
      ChangeShows(s[4..i], s[i], d, s[i + 1..] + s[..4]);
    } else {
      assert s[4..] + s[..4] == (s[4..] + s[..i]) + [s[i]] + s[i + 1..4];
      assert t[4..] + t[..4] == (s[4..] + s[..i]) + [d] + s[i + 1..4];
      ChangeShows(s[4..] + s[..i], s[i], d, s[i + 1..4]);
    }
  }

  // ---- The loops ----

  method ValidBase36(s: string) returns (ok: bool)
    ensures ok == Valid(s)
  {
    for k := 0 to |s|
      invariant forall j | 0 <= j < k :: Base36Char(s[j])
    {
      var i := s[k] as int;
      if i < 48 || (i > 57 && i < 65) || i > 90 {
        return false;
      }
    }
    return true;
  }

  /** Writes letters as two decimal digits; `None` for any other character. */
  method Iso13616Expand(s: string) returns (ok: bool, e: string)
    ensures ok == Valid(s) && (ok ==> e == Expanded(s))
  {
    e := [];
    ok := ValidBase36(s);
    if !ok {
      return;
    }
    for k := 0 to |s|
      invariant e == Expanded(s[..k])
    {
      var i := s[k] as int;
      assert s[..k + 1][..k] == s[..k];
      if i >= 65 {
        e := e + [DigitOf((i - 55) / 10), DigitOf((i - 55) % 10)];
      } else {
        e := e + [s[k]];
      }
    }
    assert s[..|s|] == s;
  }

  ghost function Reversed(s: string): (r: string) {
    if s == [] then [] else [s[|s| - 1]] + Reversed(s[..|s| - 1])
  }

  lemma {:induction false} ReversedLength(s: string)
    ensures |Reversed(s)| == |s|
  {
    if s != [] {
      ReversedLength(s[..|s| - 1]);
    }
  }

  lemma {:induction false} ReversedAt(s: string, k: nat)
    requires k < |s|
    ensures |Reversed(s)| == |s| && Reversed(s)[k] == s[|s| - 1 - k]
  {
    if k > 0 {
      ReversedAt(s[..|s| - 1], k - 1);
    } else if |s| > 1 {
      ReversedAt(s[..|s| - 1], 0);
    }
  }

  lemma {:induction false} ReversedSnoc(s: string, c: char)
    ensures Reversed(s + [c]) == [c] + Reversed(s)
  {
    assert (s + [c])[..|s|] == s;
  }

  /** Swaps from both ends towards the middle. */
  method Reverse(a: array<char>)
    modifies a
    ensures a[..] == Reversed(old(a[..]))
  {
    ghost var was := a[..];
    ghost var n := a.Length;
    var i, j := 0, a.Length - 1;
    while i < j
      invariant 0 <= i <= n && i + j == n - 1 && i <= j + 1
      invariant forall k | 0 <= k < i :: a[k] == was[n - 1 - k] && a[n - 1 - k] == was[k]
      invariant forall k | i <= k <= j :: a[k] == was[k]
    {
      a[i], a[j] := a[j], a[i];
      i, j := i + 1, j - 1;
    }
    ReversedLength(was);
    forall k | 0 <= k < n
      ensures a[..][k] == Reversed(was)[k]
    {
      ReversedAt(was, k);
    }
    assert a[..] == Reversed(was);
  }

  lemma {:induction false} Base36Step(i: nat, r: string)
    ensures (if i / 36 == 0 then [] else Base36(i / 36)) + ([CharOf(i % 36)] + r) == Base36(i) + r
  {
  }

  /** The digits, lowest first. */
  method Base36Digits(n: nat) returns (chars: string)
    ensures Reversed(chars) == Base36(n)
  {
    chars := [];
    var i := n;
    var done := false;
    assert Base36(n) + [] == Base36(n);
    while !done
      invariant Base36(n) == (if done then [] else Base36(i)) + Reversed(chars)
      decreases !done, i
    {
      var x := i % 36;
      ReversedSnoc(chars, CharOf(x));
      Base36Step(i, Reversed(chars));
      chars := chars + [CharOf(x)];
      i := i / 36;
      if i == 0 {
        done := true;
      }
    }
  }

  method Base36Encode(n: nat) returns (s: string)
    ensures s == Base36(n)
  {
    var chars := Base36Digits(n);
    var a := new char[|chars|](k requires 0 <= k < |chars| => chars[k]);
    assert a[..] == chars;
    Reverse(a);
    return a[..];
  }

  /** The decimal number a string expands to, as the checks read it. */
  method ExpandedNumber(s: string) returns (ok: bool, n: int)
    ensures ok == Valid(s) && (ok ==> n == Num(s))
  {
    var e;
    ok, e := Iso13616Expand(s);
    n := ValueIn(10, e);
    if ok {
      ExpandedValue(s);
    }
  }

  /** The check digits for a body, always two characters. */
  method CheckDigits(s: string) returns (cd: string)
    requires Valid(s)
    ensures 0 <= CheckNumber(s) < 100 && cd == TwoDigits(CheckNumber(s))
  {
    var ok, num := ExpandedNumber(s + "XE00");
    num := 98 - num % 97;
    cd := if num < 10 then [DigitOf(num)] else [DigitOf(num / 10), DigitOf(num % 10)];
    if |cd| == 1 {
      cd := "0" + cd;
    }
  }

  method ValidCheckSum(s: string) returns (err: Check)
    requires |s| >= 4
    ensures err == if !Valid(s) then Fails(EncodingError) else if !CheckSumOk(s) then Fails(ChecksumError) else Passes
  {
    var t := s[4..] + s[..4];
    assert Valid(t) <==> Valid(s) by {
      Rearranged(s);
    }
    var ok, num := ExpandedNumber(t);
    if !ok {
      return Fails(EncodingError);
    }
    if num % 97 != 1 {
      return Fails(ChecksumError);
    }
    return Passes;
  }

  lemma {:induction false} Rearranged(s: string)
    requires |s| >= 4
    ensures Valid(s[4..] + s[..4]) <==> Valid(s)
  {
    var t := s[4..] + s[..4];
    forall i | 0 <= i < |s|
      ensures exists j :: 0 <= j < |t| && t[j] == s[i]
    {
      assert t[if i < 4 then |s| - 4 + i else i - 4] == s[i];
    }
  }

  method AddressToICAP(a: nat) returns (icap: string)
    requires a < TWO_160
    ensures icap == IcapOf(a)
  {
    BodyShape(a);
    var enc := Base36Encode(a);
    if |enc| < 30 {
      enc := seq(30 - |enc|, _ => '0') + enc;
    }
    var cd := CheckDigits(enc);
    icap := "XE" + cd + enc;
  }

  method ICAPToAddress(s: string) returns (r: Result)
    ensures r == Parsed(s)
  {
    if |s| != 35 && |s| != 34 && |s| != 20 {
      return Err(LengthError);
    }
    if s[..2] != "XE" {
      return Err(CountryCodeError);
    }
    if |s| == 20 && s[4..7] != "ETH" {
      return Err(AssetIdentError);
    }
    var err := ValidCheckSum(s);
    if err.Fails? {
      return Err(err.error);
    }
    if |s| == 20 {
      return Err(NotImplemented);
    }
    return Ok(ValueIn(36, s[4..]) % TWO_160);
  }
}
