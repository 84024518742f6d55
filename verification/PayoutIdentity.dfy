/**
 From a mining `user_identity` to a payout mode, and from there to what accepted coinbase outputs pay.

 Which strings are valid addresses, and their scripts, is a parameter.
 */
module PayoutIdentity {
  import opened Payout
  import opened Options
  import opened Strings

  type Addresses = string -> Option<Script>

  datatype MissingMode = MissingFullDonation | MissingNoPayoutMode

  /** The source reports both percentage errors as one variant, carrying the text or the number. */
  datatype Error =
    | NoPayoutMode(identity: string)
    | InvalidUserIdentity(identity: string)
    | InvalidPayoutAddress(address: string)
    | InvalidDonationPercentage(text: string)
    | DonationOutOfRange(percentage: u8)
    | MissingMinerPayout(identity: string, mode: MissingMode)

  datatype Result<T> = Ok(value: T) | Err(error: Error)

  // ---------------------------------------------------------------- `u8::from_str`

  predicate IsDigit(c: char) {
    '0' <= c <= '9'
  }

  predicate AllDigits(s: string) {
    forall i :: 0 <= i < |s| ==> IsDigit(s[i])
  }

  function Decimal(s: string): nat
    requires AllDigits(s)
  {
    if s == [] then 0 else 10 * Decimal(s[..|s| - 1]) + (s[|s| - 1] as int - '0' as int)
  }

  /** An optional plus sign, at least one digit, and a value that fits. */
  function ParseU8(s: string): Option<u8> {
    var digits := if s != [] && s[0] == '+' then s[1..] else s;
    if digits != [] && AllDigits(digits) && Decimal(digits) < 256 then Some(Decimal(digits)) else None
  }

  // ---------------------------------------------------------------- which texts are which numbers

  function DigitChar(d: nat): char
    requires d < 10
  {
    "0123456789"[d]
  }

  /** A number in decimal, by division. */
  function Print(n: nat): string {
    if n < 10 then [DigitChar(n)] else Print(n / 10) + [DigitChar(n % 10)]
  }

  predicate AllZeros(z: string) {
    forall i :: 0 <= i < |z| ==> z[i] == '0'
  }

  /** The text is the number, with an optional plus sign and leading zeros. */
  ghost predicate Spells(s: string, n: nat) {
    exists z :: AllZeros(z) && (s == z + Print(n) || s == ['+'] + (z + Print(n)))
  }

  lemma DigitValue(d: nat)
    requires d < 10
    ensures IsDigit(DigitChar(d)) && DigitChar(d) as int - '0' as int == d
  {
  }

  lemma DigitOf(c: char)
    requires IsDigit(c)
    ensures DigitChar(c as int - '0' as int) == c
  {
  }

  lemma DecimalSnoc(s: string, c: char)
    requires AllDigits(s) && IsDigit(c)
    ensures AllDigits(s + [c]) && Decimal(s + [c]) == 10 * Decimal(s) + (c as int - '0' as int)
  {
    assert (s + [c])[..|s|] == s;
  }

  lemma {:induction false} PrintReads(n: nat)
    ensures Print(n) != [] && AllDigits(Print(n)) && Decimal(Print(n)) == n
  {
    DigitValue(n % 10);
    if n < 10 {
      DecimalSnoc([], DigitChar(n));
      assert [] + [DigitChar(n)] == Print(n);
    } else {
      PrintReads(n / 10);
      DecimalSnoc(Print(n / 10), DigitChar(n % 10));
    }
  }

  lemma {:induction false} LeadingZeros(z: string, s: string)
    requires AllZeros(z) && AllDigits(s)
    ensures AllDigits(z + s) && Decimal(z + s) == Decimal(s)
    decreases |z| + |s|
  {
    if s != [] {
      var n := |s| - 1;
      LeadingZeros(z, s[..n]);
      assert z + s == z + s[..n] + [s[n]];
      DecimalSnoc(z + s[..n], s[n]);
    } else if z != [] {
      var n := |z| - 1;
      LeadingZeros(z[..n], []);
      assert z[..n] + [] == z[..n] && z + s == z[..n] + ['0'];
      DecimalSnoc(z[..n], '0');
    }
  }

  lemma {:induction false} ZeroDigits(s: string)
    requires AllDigits(s) && Decimal(s) == 0
    ensures AllZeros(s)
  {
    if s != [] {
      ZeroDigits(s[..|s| - 1]);
      assert s == s[..|s| - 1] + [s[|s| - 1]];
    }
  }

  lemma PrintMore(v: nat, d: nat)
    requires d < 10
    ensures Print(10 * v + d) == if v == 0 then [DigitChar(d)] else Print(v) + [DigitChar(d)]
  {
    assert (10 * v + d) / 10 == v && (10 * v + d) % 10 == d;
  }

  /** Every string of digits is its number with zeros in front. */
  lemma {:induction false} DigitsSpell(s: string) returns (z: string)
    requires s != [] && AllDigits(s)
    ensures AllZeros(z) && s == z + Print(Decimal(s))
    decreases |s|
  {
    var init, c := s[..|s| - 1], s[|s| - 1];
    assert s == init + [c];
    if Decimal(init) == 0 {
      z := init;
      ZeroDigits(init);
      DecimalPrints(init, c);
    } else {
      z := DigitsSpell(init);
      DecimalPrints(init, c);
      Regroup(z, Print(Decimal(init)), [c]);
    }
  }

  lemma DecimalPrints(init: string, c: char)
    requires AllDigits(init) && IsDigit(c)
    ensures AllDigits(init + [c])
    ensures Print(Decimal(init + [c])) == if Decimal(init) == 0 then [c] else Print(Decimal(init)) + [c]
  {
    DecimalSnoc(init, c);
    PrintSnoc(Decimal(init), c);
  }

  /** One more digit behind a number, or a digit alone. */
  lemma PrintSnoc(v: nat, c: char)
    requires IsDigit(c)
    ensures var n := 10 * v + (c as int - '0' as int); Print(n) == if v == 0 then [c] else Print(v) + [c]
  {
    DigitOf(c);
    PrintMore(v, c as int - '0' as int);
  }

  lemma Regroup(a: string, b: string, c: string)
    ensures (a + b) + c == a + (b + c)
  {
  }

  /** Exactly the spellings of a number below 256 parse, and to that number. */
  lemma ParsesExactly(s: string, p: u8)
    ensures ParseU8(s) == Some(p) <==> Spells(s, p)
  {
    if Spells(s, p) {
      SpellingParses(s, p);
    }
    if ParseU8(s) == Some(p) {
      ParsedIsSpelled(s, p);
    }
  }

  lemma SpellingParses(s: string, p: u8)
    requires Spells(s, p)
    ensures ParseU8(s) == Some(p)
  {
    var z :| AllZeros(z) && (s == z + Print(p) || s == ['+'] + (z + Print(p)));
    var digits := z + Print(p);
    PrintReads(p);
    LeadingZeros(z, Print(p));
    DigitsParse(digits);
  }

  lemma DigitsParse(digits: string)
    requires digits != [] && AllDigits(digits) && Decimal(digits) < 256
    ensures ParseU8(digits) == ParseU8(['+'] + digits) == Some(Decimal(digits))
  {
    assert IsDigit(digits[0]);
    assert (['+'] + digits)[1..] == digits;
  }

  lemma ParsedIsSpelled(s: string, p: u8)
    requires ParseU8(s) == Some(p)
    ensures Spells(s, p)
  {
    if s[0] == '+' {
      var z := DigitsSpell(s[1..]);
      assert s == ['+'] + s[1..];
    } else {
      var z := DigitsSpell(s);
    }
  }

  lemma NumbersHaveNoSeparator(s: string)
    requires ParseU8(s).Some?
    ensures '/' !in s && '.' !in s && s != []
  {
    if s[0] == '+' {
      assert s == ['+'] + s[1..];
    }
  }

  // ---------------------------------------------------------------- parsing

  function AddressPart(identity: string): string {
    identity[..IndexOf(identity, '.')]
  }

  function ScriptOf(addresses: Addresses, address: string): Result<Script> {
    match addresses(address)
    case Some(script) => Ok(script)
    case None => Err(InvalidPayoutAddress(address))
  }

  function ParseSolo(addresses: Addresses, address: string): Result<Mode> {
    match ScriptOf(addresses, address)
    case Ok(script) => Ok(Solo(address, script))
    case Err(e) => Err(e)
  }

  function ParseDonate(addresses: Addresses, percentage: string, address: string): Result<Mode> {
    match ParseU8(percentage)
    case None => Err(InvalidDonationPercentage(percentage))
    case Some(p) =>
      if !(1 <= p < 100) then Err(DonationOutOfRange(p))
      else
        match ScriptOf(addresses, address)
        case Ok(script) => Ok(Donate(p, address, script))
        case Err(e) => Err(e)
  }

  /** The match on the first four parts of the identity. */
  function ParseParts(addresses: Addresses, identity: string, parts: seq<string>): Result<Mode>
    requires parts != []
  {
    if parts[0] != "sri" || |parts| == 1 then Err(NoPayoutMode(identity))
    else if parts[1] == "solo" && |parts| > 2 then ParseSolo(addresses, parts[2])
    else if parts[1] == "donate" && |parts| <= 3 then Ok(FullDonation)
    else if parts[1] == "donate" then ParseDonate(addresses, parts[2], parts[3])
    else Err(InvalidUserIdentity(identity))
  }

  /** `PayoutMode::try_from`. */
  function TryFrom(addresses: Addresses, identity: string): Result<Mode> {
    if identity == [] then Err(NoPayoutMode(identity))
    else
      var addr := AddressPart(identity);
      if addresses(addr).Some? then Ok(LegacySolo(addr, addresses(addr).value))
      else ParseParts(addresses, identity, Split(identity, '/'))
  }

  /** The translator's `expected_payout_distribution`. */
  function ExpectedPayout(addresses: Addresses, verifyPayout: bool, identity: string): Result<Option<Mode>> {
    if !verifyPayout then Ok(None)
    else
      match TryFrom(addresses, identity)
      case Ok(FullDonation) => Err(MissingMinerPayout(identity, MissingFullDonation))
      case Ok(mode) => Ok(Some(mode))
      case Err(NoPayoutMode(_)) => Err(MissingMinerPayout(identity, MissingNoPayoutMode))
      case Err(e) => Err(e)
  }

  // ---------------------------------------------------------------- identities and their modes

  /** Real addresses contain neither separator. */
  ghost predicate CleanAddresses(addresses: Addresses) {
    forall a :: addresses(a).Some? ==> '/' !in a && '.' !in a
  }

  /** `sri/<kind>/<rest>`. */
  function Sri(kind: string, rest: string): string {
    "sri" + ['/'] + (kind + ['/'] + rest)
  }

  /** An identity with a slash before any dot has no valid address in front. */
  lemma NotLegacy(addresses: Addresses, head: string, rest: string)
    requires CleanAddresses(addresses) && '.' !in head
    ensures addresses(AddressPart(head + ['/'] + rest)).None?
  {
    var s := head + ['/'] + rest;
    var i := IndexOf(s, '.');
    assert forall k :: 0 <= k < |head| ==> s[k] == head[k];
    assert s[|head|] == '/';
    assert s[..i][|head|] == '/';
  }

  lemma ParseTwo(addresses: Addresses, head: string, word: string)
    requires CleanAddresses(addresses) && '.' !in head && '/' !in head && '/' !in word
    ensures TryFrom(addresses, head + ['/'] + word) == ParseParts(addresses, head + ['/'] + word, [head, word])
  {
    NotLegacy(addresses, head, word);
    SplitPair(head, word, '/');
  }

  lemma ParseSri(addresses: Addresses, kind: string, rest: string)
    requires CleanAddresses(addresses) && '/' !in kind
    ensures TryFrom(addresses, Sri(kind, rest))
         == ParseParts(addresses, Sri(kind, rest), ["sri", kind] + Split(rest, '/'))
  {
    NotLegacy(addresses, "sri", kind + ['/'] + rest);
    SplitTwo("sri", kind, '/', rest);
  }

  /** `sri/solo/<address>` with any worker suffix, dots and slashes included. */
  lemma ParsesSolo(addresses: Addresses, a: string, script: Script, tail: string)
    requires CleanAddresses(addresses) && addresses(a) == Some(script) && Tail(tail, '/')
    ensures TryFrom(addresses, Sri("solo", a + tail)) == Ok(Solo(a, script))
  {
    ParseSri(addresses, "solo", a + tail);
    SplitHead(a, '/', tail);
  }

  /** `sri/donate/<percentage>/<address>`, the percentage in any spelling, with any worker suffix. */
  lemma ParsesDonate(addresses: Addresses, number: string, p: u8, a: string, script: Script, tail: string)
    requires CleanAddresses(addresses) && addresses(a) == Some(script) && Tail(tail, '/')
    requires Spells(number, p) && 1 <= p < 100
    ensures TryFrom(addresses, Sri("donate", number + ['/'] + (a + tail))) == Ok(Donate(p, a, script))
  {
    ParsesExactly(number, p);
    NumbersHaveNoSeparator(number);
    DonationParts(addresses, number, a, tail);
  }

  /** `<address>` or `<address>.<anything>`. */
  lemma ParsesLegacy(addresses: Addresses, a: string, script: Script, tail: string)
    requires CleanAddresses(addresses) && addresses(a) == Some(script) && Tail(tail, '.') && a + tail != []
    ensures TryFrom(addresses, a + tail) == Ok(LegacySolo(a, script))
  {
    if tail == [] {
      assert a + tail == a;
      IndexOfNone(a, '.');
    } else {
      assert a + tail == a + ['.'] + tail[1..];
      IndexOfFirst(a, '.', tail[1..]);
    }
  }

  // ---------------------------------------------------------------- what is refused, and why

  /** `sri/solo/<x>`: what is not an address is reported as such. */
  lemma RefusesSoloAddress(addresses: Addresses, a: string, tail: string)
    requires CleanAddresses(addresses) && addresses(a) == None && '/' !in a && Tail(tail, '/')
    ensures TryFrom(addresses, Sri("solo", a + tail)) == Err(InvalidPayoutAddress(a))
  {
    ParseSri(addresses, "solo", a + tail);
    SplitHead(a, '/', tail);
  }

  /** `sri/donate/<x>/<a>`: a percentage that is no number below 256, one out of range, or a bad address. */
  lemma RefusesDonation(addresses: Addresses, x: string, a: string, tail: string)
    requires CleanAddresses(addresses) && '/' !in x && '/' !in a && Tail(tail, '/')
    ensures var r := TryFrom(addresses, Sri("donate", x + ['/'] + (a + tail)));
            && ((forall p: u8 :: !Spells(x, p)) ==> r == Err(InvalidDonationPercentage(x)))
            && (forall p: u8 :: Spells(x, p) && (p == 0 || p >= 100) ==> r == Err(DonationOutOfRange(p)))
            && ((exists p: u8 :: Spells(x, p) && 1 <= p <= 99) && addresses(a) == None ==>
                  r == Err(InvalidPayoutAddress(a)))
  {
    DonationParts(addresses, x, a, tail);
    forall p: u8 ensures ParseU8(x) == Some(p) <==> Spells(x, p) {
      ParsesExactly(x, p);
    }
    if ParseU8(x).Some? {
      assert Spells(x, ParseU8(x).value);
    }
  }

  lemma DonationParts(addresses: Addresses, x: string, a: string, tail: string)
    requires CleanAddresses(addresses) && '/' !in x && '/' !in a && Tail(tail, '/')
    ensures TryFrom(addresses, Sri("donate", x + ['/'] + (a + tail))) == ParseDonate(addresses, x, a)
  {
    ParseSri(addresses, "donate", x + ['/'] + (a + tail));
    SplitFirst(x, '/', a + tail);
    SplitHead(a, '/', tail);
  }

  /** `sri/<x>...` with another word, and `sri/solo` with nothing after it, are no identities. */
  lemma RefusesOtherWords(addresses: Addresses, kind: string, rest: string)
    requires CleanAddresses(addresses) && '/' !in kind && kind != "solo" && kind != "donate"
    ensures TryFrom(addresses, Sri(kind, rest)) == Err(InvalidUserIdentity(Sri(kind, rest)))
    ensures TryFrom(addresses, "sri" + ['/'] + "solo") == Err(InvalidUserIdentity("sri" + ['/'] + "solo"))
  {
    ParseSri(addresses, kind, rest);
    BareSolo(addresses);
  }

  lemma BareSolo(addresses: Addresses)
    requires CleanAddresses(addresses)
    ensures TryFrom(addresses, "sri" + ['/'] + "solo") == Err(InvalidUserIdentity("sri" + ['/'] + "solo"))
  {
    ParseTwo(addresses, "sri", "solo");
  }

  /** Verification that is off asks for nothing, and on it passes every other error through. */
  lemma VerificationSwitch(addresses: Addresses, identity: string)
    ensures ExpectedPayout(addresses, false, identity) == Ok(None)
    ensures var r := TryFrom(addresses, identity);
            && (r.Ok? && !r.value.FullDonation? ==> ExpectedPayout(addresses, true, identity) == Ok(Some(r.value)))
            && (r.Err? && !r.error.NoPayoutMode? ==> ExpectedPayout(addresses, true, identity) == Err(r.error))
  {
  }

  /** `sri/donate` with at most one more part. */
  ghost predicate GivesAll(identity: string) {
    identity == "sri" + ['/'] + "donate" || exists w :: '/' !in w && identity == Sri("donate", w)
  }

  lemma ParsesBareDonate(addresses: Addresses)
    requires CleanAddresses(addresses)
    ensures TryFrom(addresses, "sri" + ['/'] + "donate") == Ok(FullDonation)
  {
    ParseTwo(addresses, "sri", "donate");
  }

  lemma ParsesGivesAll(addresses: Addresses, identity: string)
    requires CleanAddresses(addresses) && GivesAll(identity)
    ensures TryFrom(addresses, identity) == Ok(FullDonation)
  {
    if identity == "sri" + ['/'] + "donate" {
      ParsesBareDonate(addresses);
    } else {
      var w :| '/' !in w && identity == Sri("donate", w);
      ParseSri(addresses, "donate", w);
      SplitNone(w, '/');
    }
  }

  /** Exactly these identities give everything to the pool, and exactly these are refused for it. */
  lemma RefusesFullDonation(addresses: Addresses, identity: string)
    requires CleanAddresses(addresses)
    ensures TryFrom(addresses, identity) == Ok(FullDonation) <==> GivesAll(identity)
    ensures ExpectedPayout(addresses, true, identity) == Err(MissingMinerPayout(identity, MissingFullDonation))
       <==> GivesAll(identity)
  {
    if GivesAll(identity) {
      ParsesGivesAll(addresses, identity);
    }
    if TryFrom(addresses, identity) == Ok(FullDonation) {
      ParsedModeIsNamed(addresses, identity);
    }
  }

  /** No address in front, and nothing after a leading `sri`, or another word instead of it. */
  predicate Modeless(addresses: Addresses, identity: string) {
    || identity == []
    || (addresses(AddressPart(identity)).None? && (identity == "sri" || Split(identity, '/')[0] != "sri"))
  }

  /** Exactly the identities without a mode are refused for having none. */
  lemma RefusesModeless(addresses: Addresses, identity: string)
    ensures TryFrom(addresses, identity) == Err(NoPayoutMode(identity)) <==> Modeless(addresses, identity)
    ensures ExpectedPayout(addresses, true, identity) == Err(MissingMinerPayout(identity, MissingNoPayoutMode))
       <==> Modeless(addresses, identity)
  {
    SplitAlone(identity, "sri", '/');
    ExpectedModeless(addresses, identity);
  }

  /** Verification refuses for a missing mode exactly what does not parse for want of one. */
  lemma ExpectedModeless(addresses: Addresses, identity: string)
    ensures ExpectedPayout(addresses, true, identity) == Err(MissingMinerPayout(identity, MissingNoPayoutMode))
       <==> TryFrom(addresses, identity) == Err(NoPayoutMode(identity))
  {
  }

  lemma JoinTail(parts: seq<string>, c: char, i: nat)
    requires i < |parts|
    ensures exists t :: Tail(t, c) && Join(parts[i..], c) == parts[i] + t
  {
    var rest := parts[i..];
    if |rest| == 1 {
      assert Tail([], c) && Join(rest, c) == parts[i] + [];
    } else {
      var t := [c] + Join(rest[1..], c);
      assert Tail(t, c) && Join(rest, c) == parts[i] + t;
    }
  }

  /** The identities that name a mode. */
  ghost predicate Names(addresses: Addresses, identity: string, mode: Mode) {
    match mode
    case LegacySolo(a, script) =>
      addresses(a) == Some(script) && exists t :: Tail(t, '.') && identity == a + t
    case Solo(a, script) =>
      addresses(a) == Some(script) && exists t :: Tail(t, '/') && identity == Sri("solo", a + t)
    case Donate(p, a, script) =>
      && addresses(a) == Some(script) && 1 <= p < 100
      && exists number, t :: Spells(number, p) && Tail(t, '/')
                             && identity == Sri("donate", number + ['/'] + (a + t))
    case FullDonation => GivesAll(identity)
  }

  /** An identity of at least three parts, put back together. */
  lemma SriShape(identity: string, parts: seq<string>) returns (t: string)
    requires parts == Split(identity, '/') && |parts| > 2 && parts[0] == "sri"
    ensures Tail(t, '/') && identity == Sri(parts[1], parts[2] + t)
    ensures |parts| == 3 ==> t == [] && '/' !in parts[2]
    ensures |parts| > 3 ==> exists u :: Tail(u, '/') && t == ['/'] + (parts[3] + u)
  {
    JoinSplit(identity, '/');
    SplitClean(identity, '/');
    assert parts[1..][1..] == parts[2..];
    assert identity == parts[0] + ['/'] + Join(parts[1..], '/');
    assert Join(parts[1..], '/') == parts[1] + ['/'] + Join(parts[2..], '/');
    if |parts| == 3 {
      t := [];
      assert parts[2..] == [parts[2]];
      assert parts[2] + t == parts[2];
    } else {
      t := ['/'] + Join(parts[3..], '/');
      assert parts[2..][1..] == parts[3..];
      assert Join(parts[2..], '/') == parts[2] + ['/'] + Join(parts[3..], '/');
      assert parts[2] + t == Join(parts[2..], '/');
      JoinTail(parts, '/', 3);
    }
  }

  lemma NamesDonate(addresses: Addresses, identity: string, p: u8, a: string, script: Script, number: string, t: string)
    requires addresses(a) == Some(script) && 1 <= p < 100 && ParseU8(number) == Some(p) && Tail(t, '/')
    requires identity == Sri("donate", number + ['/'] + (a + t))
    ensures Names(addresses, identity, Donate(p, a, script))
  {
    ParsesExactly(number, p);
  }

  lemma NamedSri(addresses: Addresses, identity: string, parts: seq<string>)
    requires parts == Split(identity, '/') && |parts| > 2 && parts[0] == "sri"
    requires ParseParts(addresses, identity, parts).Ok?
    ensures Names(addresses, identity, ParseParts(addresses, identity, parts).value)
  {
    var t := SriShape(identity, parts);
    if parts[1] == "solo" {
    } else if |parts| == 3 {
      assert parts[2] + t == parts[2];
    } else {
      var u :| Tail(u, '/') && t == ['/'] + (parts[3] + u);
      assert parts[2] + t == parts[2] + ['/'] + (parts[3] + u);
      var p := ParseU8(parts[2]).value;
      NamesDonate(addresses, identity, p, parts[3], addresses(parts[3]).value, parts[2], u);
    }
  }

  lemma NamedLegacy(addresses: Addresses, identity: string)
    requires addresses(AddressPart(identity)).Some?
    ensures Names(addresses, identity, LegacySolo(AddressPart(identity), addresses(AddressPart(identity)).value))
  {
    var i := IndexOf(identity, '.');
    assert Tail(identity[i..], '.') && identity == identity[..i] + identity[i..];
  }

  /** What parsing returns is always named by the identity: nothing is made up. */
  lemma ParsedModeIsNamed(addresses: Addresses, identity: string)
    requires TryFrom(addresses, identity).Ok?
    ensures Names(addresses, identity, TryFrom(addresses, identity).value)
  {
    var parts := Split(identity, '/');
    if addresses(AddressPart(identity)).Some? {
      NamedLegacy(addresses, identity);
    } else if |parts| > 2 {
      NamedSri(addresses, identity, parts);
    } else {
      NamedShort(addresses, identity, parts);
    }
  }

  lemma NamedShort(addresses: Addresses, identity: string, parts: seq<string>)
    requires parts == Split(identity, '/') && |parts| <= 2 && ParseParts(addresses, identity, parts).Ok?
    ensures Names(addresses, identity, ParseParts(addresses, identity, parts).value)
  {
    JoinSplit(identity, '/');
    assert parts[1..] == [parts[1]];
  }

  // ---------------------------------------------------------------- end to end

  /** Addresses pay to scripts that can be spent. */
  ghost predicate SpendableAddresses(addresses: Addresses) {
    forall a :: addresses(a).Some? ==> !IsOpReturn(addresses(a).value)
  }

  /** With verification on, an identity that is let through carries a miner payout to its own address that can fail. */
  lemma VerifiedModeIsReal(addresses: Addresses, identity: string)
    requires ExpectedPayout(addresses, true, identity).Ok?
    ensures var expected := ExpectedPayout(addresses, true, identity).value;
            && expected.Some? && Proper(expected.value)
            && (expected.value.Donate? ==> 1 <= expected.value.percentage <= 99)
            && addresses(expected.value.address) == Some(expected.value.script)
            && Validate(expected.value, []) == NoSpendableOutputs
  {
    ParsedModeIsNamed(addresses, identity);
  }

  /**
   And outputs pass exactly when they pay that address what the mode promises, unless something overflows:
   for every spendable sum, all outputs are judged rightly if and only if the sum and the mode's product
   stay below 2^64.
   */
  lemma VerifiedPayoutIsReal(addresses: Addresses, identity: string, total: nat)
    requires ExpectedPayout(addresses, true, identity).Ok? && SpendableAddresses(addresses)
    ensures var expected := ExpectedPayout(addresses, true, identity).value;
            && expected.Some? && Proper(expected.value)
            && (AlwaysRight(expected.value, total) <==> Fits(expected.value, total))
  {
    VerifiedModeIsReal(addresses, identity);
    AcceptanceIsExact(ExpectedPayout(addresses, true, identity).value.value, total);
  }
}
