/** Transfer mode and option values: names, decimal values, parsing, and the ordered,
    de-duplicated option set. */
module Options {
  import opened Basics

  const MIN_BLOCK_SIZE := 8
  const MAX_BLOCK_SIZE := 65464

  // The option names in lower case: "blksize", "timeout", "tsize", "windowsize".
  const BLKSIZE: bytes := [98, 108, 107, 115, 105, 122, 101]
  const TIMEOUT: bytes := [116, 105, 109, 101, 111, 117, 116]
  const TSIZE: bytes := [116, 115, 105, 122, 101]
  const WINDOWSIZE: bytes := [119, 105, 110, 100, 111, 119, 115, 105, 122, 101]

  // The mode names in lower case: "netascii", "octet", "binary".
  const NETASCII: bytes := [110, 101, 116, 97, 115, 99, 105, 105]
  const OCTET: bytes := [111, 99, 116, 101, 116]
  const BINARY: bytes := [98, 105, 110, 97, 114, 121]

  datatype Error =
    | Malformed
    | UnknownOpcode(code: u16)
    | InvalidUtf8
    | MissingNul
    | InvalidMode(text: bytes)
    | InvalidOption(name: bytes, text: bytes)

  datatype Mode = NetAscii | Octet

  datatype OptionValue =
    | BlockSize(blksize: u16)
    | Timeout(secs: u8)
    | TransferSize(tsize: u64)
    | WindowSize(windowsize: u16)

  // ---------- text ----------

  function LowerByte(b: byte): byte {
    if 65 <= b <= 90 then b + 32 else b
  }

  /** `to_ascii_lowercase`; two strings are equal ignoring case when their lower forms are. */
  function Lower(s: bytes): (l: bytes)
    ensures |l| == |s|
  {
    seq(|s|, i requires 0 <= i < |s| => LowerByte(s[i]))
  }

  lemma LowerIdempotent(s: bytes)
    ensures Lower(Lower(s)) == Lower(s)
  {
  }

  /** The same byte, or the two cases of one ASCII letter. */
  predicate SameLetter(a: byte, b: byte) {
    a == b || (65 <= a <= 90 && b == a + 32) || (65 <= b <= 90 && a == b + 32)
  }

  /** `eq_ignore_ascii_case`. */
  predicate SameText(s: bytes, t: bytes) {
    |s| == |t| && forall i :: 0 <= i < |s| ==> SameLetter(s[i], t[i])
  }

  /** Folding to lower case identifies exactly the texts that differ in case only. */
  lemma LowerIff(s: bytes, t: bytes)
    ensures SameText(s, t) <==> Lower(s) == Lower(t)
  {
    if Lower(s) == Lower(t) {
      forall i | 0 <= i < |s| ensures SameLetter(s[i], t[i]) {
        assert Lower(s)[i] == LowerByte(s[i]) && Lower(t)[i] == LowerByte(t[i]);
      }
    }
  }

  /** The bytes of an ASCII literal. */
  function Ascii(s: string): bytes
    requires forall i :: 0 <= i < |s| ==> s[i] as int < 0x80
  {
    seq(|s|, i requires 0 <= i < |s| => s[i] as int)
  }

  lemma Literals()
    ensures BLKSIZE == Ascii("blksize") && TIMEOUT == Ascii("timeout")
    ensures TSIZE == Ascii("tsize") && WINDOWSIZE == Ascii("windowsize")
    ensures NETASCII == Ascii("netascii") && OCTET == Ascii("octet") && BINARY == Ascii("binary")
  {
  }

  /** Each byte of `text` is the character at its place in `lower` or in `upper`. */
  ghost predicate Spells(text: bytes, lower: string, upper: string)
    requires |lower| == |upper|
  {
    |text| == |lower| && forall i :: 0 <= i < |text| ==> text[i] == lower[i] as int || text[i] == upper[i] as int
  }

  lemma SpellsIff(text: bytes, lower: string, upper: string)
    requires |lower| == |upper|
    requires forall i :: 0 <= i < |lower| ==> 'a' <= lower[i] <= 'z' && upper[i] as int == lower[i] as int - 32
    ensures SameText(text, Ascii(lower)) <==> Spells(text, lower, upper)
  {
    if SameText(text, Ascii(lower)) {
      forall i | 0 <= i < |text| ensures text[i] == lower[i] as int || text[i] == upper[i] as int {
        assert SameLetter(text[i], Ascii(lower)[i]);
      }
    }
  }

  function ModeName(m: Mode): bytes {
    match m
    case NetAscii => NETASCII
    case Octet => OCTET
  }

  function ParseMode(text: bytes): Result<Mode, Error> {
    if SameText(text, NETASCII) then Ok(NetAscii)
    else if SameText(text, OCTET) || SameText(text, BINARY) then Ok(Octet)
    else Err(InvalidMode(text))
  }

  /** Exactly which texts name a mode. */
  lemma ParseModeIff(text: bytes)
    ensures ParseMode(text) == Ok(NetAscii) <==> Spells(text, "netascii", "NETASCII")
    ensures ParseMode(text) == Ok(Octet) <==> Spells(text, "octet", "OCTET") || Spells(text, "binary", "BINARY")
    ensures ParseMode(text).Err? ==> ParseMode(text).error == InvalidMode(text)
  {
    Literals();
    SpellsIff(text, "netascii", "NETASCII");
    SpellsIff(text, "octet", "OCTET");
    SpellsIff(text, "binary", "BINARY");
    assert |NETASCII| == 8 && |OCTET| == 5 && |BINARY| == 6;
  }

  predicate IsDigit(b: byte) {
    48 <= b <= 57
  }

  /** Decimal printing, without leading zeros. */
  function Digits(n: nat): bytes {
    if n < 10 then [48 + n] else Digits(n / 10) + [48 + n % 10]
  }

  function DigitsValue(s: bytes): nat
    requires forall b :: b in s ==> IsDigit(b)
  {
    if s == [] then 0
    else
      var last := s[|s| - 1];
      assert IsDigit(last);
      DigitsValue(s[..|s| - 1]) * 10 + (last as int - 48)
  }

  /** Decimal parsing of an unsigned integer: one optional leading plus sign, at least one digit,
      leading zeros allowed, nothing above `max`. */
  function ParseUnsigned(text: bytes, max: nat): (n: Option<nat>)
    ensures n.Some? ==> n.value <= max
  {
    var digits := if |text| > 0 && text[0] == 43 then text[1..] else text;
    if digits != [] && (forall b :: b in digits ==> IsDigit(b)) && DigitsValue(digits) <= max
    then Some(DigitsValue(digits))
    else None
  }

  lemma {:induction false} DigitsRoundTrip(n: nat)
    ensures Digits(n) != [] && forall b :: b in Digits(n) ==> IsDigit(b)
    ensures DigitsValue(Digits(n)) == n
  {
    if n < 10 {
      assert Digits(n)[..0] == [];
      assert DigitsValue(Digits(n)) == DigitsValue(Digits(n)[..0]) * 10 + n;
    } else {
      DigitsRoundTrip(n / 10);
      assert Digits(n)[..|Digits(n)| - 1] == Digits(n / 10);
    }
  }

  /** Printing and parsing agree, and the parser's bound is the only thing that can refuse. */
  lemma ParsePrinted(n: nat, max: nat)
    ensures ParseUnsigned(Digits(n), max) == if n <= max then Some(n) else None
  {
    DigitsRoundTrip(n);
    assert Digits(n)[0] in Digits(n);
  }

  function Zeros(k: nat): bytes {
    seq(k, _ => 48)
  }

  lemma {:induction false} LeadingZeros(k: nat, s: bytes)
    requires forall b :: b in s ==> IsDigit(b)
    ensures forall b :: b in Zeros(k) + s ==> IsDigit(b)
    ensures DigitsValue(Zeros(k) + s) == DigitsValue(s)
  {
    var all := Zeros(k) + s;
    if s != [] {
      LeadingZeros(k, s[..|s| - 1]);
      assert all[..|all| - 1] == Zeros(k) + s[..|s| - 1];
    } else if k > 0 {
      LeadingZeros(k - 1, []);
      assert all[..|all| - 1] == Zeros(k - 1) + [];
    }
  }

  lemma DigitsSnoc(v: nat, e: nat)
    requires v > 0 && e < 10
    ensures Digits(v * 10 + e) == Digits(v) + [48 + e]
  {
    assert (v * 10 + e) / 10 == v && (v * 10 + e) % 10 == e;
  }

  lemma {:induction false} DigitsShape(s: bytes) returns (k: nat)
    requires s != [] && forall b :: b in s ==> IsDigit(b)
    ensures s == Zeros(k) + Digits(DigitsValue(s))
  {
    var init, d := s[..|s| - 1], s[|s| - 1];
    assert IsDigit(d) && s == init + [d];
    if init == [] {
      k := 0;
    } else {
      k := DigitsShape(init);
      var v := DigitsValue(init);
      if v == 0 {
        assert Digits(v) == [48];
        assert init == Zeros(k + 1);
        k := k + 1;
      } else {
        DigitsSnoc(v, d - 48);
        assert s == Zeros(k) + (Digits(v) + [d]);
      }
    }
  }

  /** Exactly which texts parse, and to what: an optional plus sign, any number of leading zeros,
      then the number as it would be printed, if it is small enough. */
  lemma ParseUnsignedIff(text: bytes, max: nat, n: nat)
    ensures ParseUnsigned(text, max) == Some(n) <==>
            n <= max && exists k: nat :: text == Zeros(k) + Digits(n) || text == [43] + (Zeros(k) + Digits(n))
  {
    DigitsRoundTrip(n);
    var digits := if |text| > 0 && text[0] == 43 then text[1..] else text;
    if ParseUnsigned(text, max) == Some(n) {
      var k := DigitsShape(digits);
      assert text == digits || text == [43] + digits;
    }
    if k: nat :| text == Zeros(k) + Digits(n) || text == [43] + (Zeros(k) + Digits(n)) {
      var body := Zeros(k) + Digits(n);
      LeadingZeros(k, Digits(n));
      assert body != [] && body[0] in body && IsDigit(body[0]);
      assert digits == body;
    }
  }

  // ---------- one option ----------

  function Name(o: OptionValue): bytes {
    match o
    case BlockSize(_) => BLKSIZE
    case Timeout(_) => TIMEOUT
    case TransferSize(_) => TSIZE
    case WindowSize(_) => WINDOWSIZE
  }

  function Number(o: OptionValue): nat {
    match o
    case BlockSize(v) => v
    case Timeout(v) => v
    case TransferSize(v) => v
    case WindowSize(v) => v
  }

  function ValueString(o: OptionValue): bytes {
    Digits(Number(o))
  }

  /** The values the parser lets through. */
  predicate InRange(o: OptionValue) {
    match o
    case BlockSize(v) => MIN_BLOCK_SIZE <= v <= MAX_BLOCK_SIZE
    case Timeout(v) => v > 0
    case TransferSize(_) => true
    case WindowSize(v) => v > 0
  }

  function Parse(name: bytes, text: bytes): Result<OptionValue, Error> {
    var invalid := Err(InvalidOption(name, text));
    if SameText(name, BLKSIZE) then
      var n := ParseUnsigned(text, 0xFFFF);
      if n.None? || n.value < MIN_BLOCK_SIZE || n.value > MAX_BLOCK_SIZE then invalid
      else Ok(BlockSize(n.value))
    else if SameText(name, TIMEOUT) then
      var n := ParseUnsigned(text, 0xFF);
      if n.None? || n.value == 0 then invalid else Ok(Timeout(n.value))
    else if SameText(name, TSIZE) then
      var n := ParseUnsigned(text, 0xFFFF_FFFF_FFFF_FFFF);
      if n.None? then invalid else Ok(TransferSize(n.value))
    else if SameText(name, WINDOWSIZE) then
      var n := ParseUnsigned(text, 0xFFFF);
      if n.None? || n.value == 0 then invalid else Ok(WindowSize(n.value))
    else invalid
  }

  lemma NamesDiffer()
    ensures BLKSIZE != TIMEOUT && BLKSIZE != TSIZE && BLKSIZE != WINDOWSIZE
    ensures TIMEOUT != TSIZE && TIMEOUT != WINDOWSIZE && TSIZE != WINDOWSIZE
    ensures Lower(BLKSIZE) == BLKSIZE && Lower(TIMEOUT) == TIMEOUT
    ensures Lower(TSIZE) == TSIZE && Lower(WINDOWSIZE) == WINDOWSIZE
  {
    assert BLKSIZE[0] != TIMEOUT[0];
    assert |TSIZE| == 5 && |WINDOWSIZE| == 10 && |BLKSIZE| == 7 && |TIMEOUT| == 7;
  }

  /** What parses has the name it was parsed under and a value in range. */
  lemma ParseSound(name: bytes, text: bytes)
    ensures Parse(name, text).Ok? ==>
              SameText(name, Name(Parse(name, text).value)) && InRange(Parse(name, text).value)
  {
  }

  lemma ParsedName(name: bytes, text: bytes)
    requires Parse(name, text).Ok? && Lower(name) == name
    ensures Name(Parse(name, text).value) == name
  {
    NamesDiffer();
    LowerIff(name, Name(Parse(name, text).value));
  }

  /** The spellings of a kind of option. */
  ghost predicate Spelled(o: OptionValue, name: bytes) {
    match o
    case BlockSize(_) => Spells(name, "blksize", "BLKSIZE")
    case Timeout(_) => Spells(name, "timeout", "TIMEOUT")
    case TransferSize(_) => Spells(name, "tsize", "TSIZE")
    case WindowSize(_) => Spells(name, "windowsize", "WINDOWSIZE")
  }

  /** The limits of RFC 2348, RFC 2349 and RFC 7440. */
  ghost predicate Allowed(o: OptionValue) {
    match o
    case BlockSize(v) => 8 <= v <= 65464
    case Timeout(v) => 1 <= v <= 255
    case TransferSize(_) => true
    case WindowSize(v) => 1 <= v <= 65535
  }

  /** The decimal spellings of a number: a plus sign is allowed, and so are leading zeros. */
  ghost predicate Decimal(text: bytes, n: nat) {
    exists k: nat :: text == Zeros(k) + Digits(n) || text == [43] + (Zeros(k) + Digits(n))
  }

  /** Exactly which name and value strings parse, and to what. */
  lemma ParseIff(name: bytes, text: bytes, o: OptionValue)
    ensures Parse(name, text) == Ok(o) <==> Spelled(o, name) && Allowed(o) && Decimal(text, Number(o))
    ensures Parse(name, text).Err? ==> Parse(name, text).error == InvalidOption(name, text)
  {
    NamesSpelled(name);
    ParseUnsignedIff(text, 0xFF, Number(o));
    ParseUnsignedIff(text, 0xFFFF, Number(o));
    ParseUnsignedIff(text, 0xFFFF_FFFF_FFFF_FFFF, Number(o));
  }

  lemma SpelledIff(o: OptionValue, name: bytes)
    ensures Spelled(o, name) <==> SameText(name, Name(o))
  {
    NamesSpelled(name);
  }

  lemma NamesSpelled(name: bytes)
    ensures SameText(name, BLKSIZE) <==> Spells(name, "blksize", "BLKSIZE")
    ensures SameText(name, TIMEOUT) <==> Spells(name, "timeout", "TIMEOUT")
    ensures SameText(name, TSIZE) <==> Spells(name, "tsize", "TSIZE")
    ensures SameText(name, WINDOWSIZE) <==> Spells(name, "windowsize", "WINDOWSIZE")
    ensures SameText(name, BLKSIZE) ==> !SameText(name, TIMEOUT)
  {
    Literals();
    SpellsIff(name, "blksize", "BLKSIZE");
    SpellsIff(name, "timeout", "TIMEOUT");
    SpellsIff(name, "tsize", "TSIZE");
    SpellsIff(name, "windowsize", "WINDOWSIZE");
    assert !SameLetter(BLKSIZE[0], TIMEOUT[0]);
  }

  /** A printed option parses back to itself exactly when its value is in range. */
  lemma ParseEncoded(o: OptionValue)
    ensures Lower(Name(o)) == Name(o)
    ensures Parse(Name(o), ValueString(o)) ==
            if InRange(o) then Ok(o) else Err(InvalidOption(Name(o), ValueString(o)))
  {
    NamesDiffer();
    ParsePrinted(Number(o), 0xFF);
    ParsePrinted(Number(o), 0xFFFF);
    ParsePrinted(Number(o), 0xFFFF_FFFF_FFFF_FFFF);
  }

  // ---------- option sets ----------

  ghost predicate Distinct(items: seq<OptionValue>) {
    forall i, j :: 0 <= i < j < |items| ==> Name(items[i]) != Name(items[j])
  }

  /** Overwrites the option of the same name in place, or appends. */
  function Inserted(items: seq<OptionValue>, o: OptionValue): seq<OptionValue> {
    if items == [] then [o]
    else if Name(items[0]) == Name(o) then [o] + items[1..]
    else [items[0]] + Inserted(items[1..], o)
  }

  lemma {:induction false} InsertedNew(items: seq<OptionValue>, o: OptionValue)
    requires forall x :: x in items ==> Name(x) != Name(o)
    ensures Inserted(items, o) == items + [o]
  {
    if items != [] {
      InsertedNew(items[1..], o);
    }
  }

  lemma {:induction false} InsertedAt(items: seq<OptionValue>, o: OptionValue, i: nat)
    requires i < |items| && Name(items[i]) == Name(o)
    requires forall j :: 0 <= j < i ==> Name(items[j]) != Name(o)
    ensures Inserted(items, o) == items[i := o]
  {
    if i > 0 {
      InsertedAt(items[1..], o, i - 1);
    }
  }

  /** Inserting keeps names distinct, makes `o` the value of its kind and leaves others alone. */
  lemma {:induction false} InsertedMeaning(items: seq<OptionValue>, o: OptionValue)
    requires Distinct(items)
    ensures Distinct(Inserted(items, o))
    ensures forall x :: x in Inserted(items, o) <==> x == o || (x in items && Name(x) != Name(o))
  {
    if i: nat :| i < |items| && Name(items[i]) == Name(o) {
      assert forall j :: 0 <= j < i ==> Name(items[j]) != Name(o);
      InsertedAt(items, o, i);
      OverwrittenMeaning(items, o, i, items[i := o]);
    } else {
      InsertedNew(items, o);
    }
  }

  lemma OverwrittenMeaning(items: seq<OptionValue>, o: OptionValue, i: nat, updated: seq<OptionValue>)
    requires Distinct(items) && i < |items| && Name(items[i]) == Name(o) && updated == items[i := o]
    ensures Distinct(updated)
    ensures forall x :: x in updated <==> x == o || (x in items && Name(x) != Name(o))
  {
    assert updated[i] == o;
    forall x | x in items && Name(x) != Name(o) ensures x in updated {
      var j :| 0 <= j < |items| && items[j] == x;
      assert updated[j] == x;
    }
  }

  function BlockSizeOf(items: seq<OptionValue>): Option<u16> {
    if items == [] then None
    else if items[0].BlockSize? then Some(items[0].blksize) else BlockSizeOf(items[1..])
  }

  function TimeoutOf(items: seq<OptionValue>): Option<u8> {
    if items == [] then None
    else if items[0].Timeout? then Some(items[0].secs) else TimeoutOf(items[1..])
  }

  function TransferSizeOf(items: seq<OptionValue>): Option<u64> {
    if items == [] then None
    else if items[0].TransferSize? then Some(items[0].tsize) else TransferSizeOf(items[1..])
  }

  function WindowSizeOf(items: seq<OptionValue>): Option<u16> {
    if items == [] then None
    else if items[0].WindowSize? then Some(items[0].windowsize) else WindowSizeOf(items[1..])
  }

  /** The accessors read off membership. */
  lemma {:induction false} AccessorsMeaning(items: seq<OptionValue>)
    requires Distinct(items)
    ensures forall v: u16 :: BlockSizeOf(items) == Some(v) <==> BlockSize(v) in items
    ensures forall v: u8 :: TimeoutOf(items) == Some(v) <==> Timeout(v) in items
    ensures forall v: u64 :: TransferSizeOf(items) == Some(v) <==> TransferSize(v) in items
    ensures forall v: u16 :: WindowSizeOf(items) == Some(v) <==> WindowSize(v) in items
  {
    if items != [] {
      var rest := items[1..];
      assert Distinct(rest);
      AccessorsMeaning(rest);
      assert forall o :: o in items <==> o == items[0] || o in rest;
      assert forall o :: o in rest ==> Name(o) != Name(items[0]);
    }
  }

  // ---------- options from name and value strings ----------

  type Pair = (bytes, bytes)

  /** Lower-case names in order of first occurrence. */
  function NamesInOrder(pairs: seq<Pair>): seq<bytes> {
    if pairs == [] then []
    else
      var names := NamesInOrder(pairs[..|pairs| - 1]);
      var name := Lower(pairs[|pairs| - 1].0);
      if name in names then names else names + [name]
  }

  /** The last value given under each lower-case name. */
  function Latest(pairs: seq<Pair>): map<bytes, bytes> {
    if pairs == [] then map[]
    else Latest(pairs[..|pairs| - 1])[Lower(pairs[|pairs| - 1].0) := pairs[|pairs| - 1].1]
  }

  function Collect(names: seq<bytes>, latest: map<bytes, bytes>): seq<OptionValue> {
    if names == [] then []
    else
      var items := Collect(names[..|names| - 1], latest);
      var name := names[|names| - 1];
      if name in latest && Parse(name, latest[name]).Ok? then Inserted(items, Parse(name, latest[name]).value)
      else items
  }

  function FromPairs(pairs: seq<Pair>): seq<OptionValue> {
    Collect(NamesInOrder(pairs), Latest(pairs))
  }

  /** The option set object. */
  class OptionSet {
    var items: seq<OptionValue>

    constructor ()
      ensures items == []
    {
      items := [];
    }

    method Insert(o: OptionValue)
      modifies this
      ensures items == Inserted(old(items), o)
    {
      var i := 0;
      while i < |items|
        invariant 0 <= i <= |items| && items == old(items)
        invariant forall j :: 0 <= j < i ==> Name(items[j]) != Name(o)
      {
        if Name(items[i]) == Name(o) {
          InsertedAt(items, o, i);
          items := items[i := o];
          return;
        }
        i := i + 1;
      }
      InsertedNew(items, o);
      items := items + [o];
    }

    constructor OfPairs(pairs: seq<Pair>)
      ensures items == FromPairs(pairs)
    {
      items := [];
      new;
      var order: seq<bytes> := [];
      var latest: map<bytes, bytes> := map[];
      for i := 0 to |pairs|
        invariant order == NamesInOrder(pairs[..i])
        invariant latest == Latest(pairs[..i])
        invariant items == []
      {
        OnePairMore(pairs, i);
        var lower := Lower(pairs[i].0);
        if lower !in order {
          order := order + [lower];
        }
        latest := latest[lower := pairs[i].1];
      }
      assert pairs[..|pairs|] == pairs;
      for i := 0 to |order|
        invariant items == Collect(order[..i], latest)
      {
        OneNameMore(order, latest, i);
        var name := order[i];
        if name in latest {
          var parsed := Parse(name, latest[name]);
          if parsed.Ok? {
            Insert(parsed.value);
          }
        }
      }
      assert order[..|order|] == order;
    }
  }

  lemma OnePairMore(pairs: seq<Pair>, i: nat)
    requires i < |pairs|
    ensures var lower, names := Lower(pairs[i].0), NamesInOrder(pairs[..i]);
            && NamesInOrder(pairs[..i + 1]) == (if lower in names then names else names + [lower])
            && Latest(pairs[..i + 1]) == Latest(pairs[..i])[lower := pairs[i].1]
  {
    assert pairs[..i + 1][..i] == pairs[..i];
  }

  lemma OneNameMore(order: seq<bytes>, latest: map<bytes, bytes>, i: nat)
    requires i < |order|
    ensures var items, name := Collect(order[..i], latest), order[i];
            Collect(order[..i + 1], latest)
            == if name in latest && Parse(name, latest[name]).Ok? then Inserted(items, Parse(name, latest[name]).value) else items
  {
    assert order[..i + 1][..i] == order[..i];
  }

  // ---------- what OfPairs means ----------

  /** The value of the last pair whose name is `name`, ignoring case. */
  function LastValue(pairs: seq<Pair>, name: bytes): Option<bytes> {
    if pairs == [] then None
    else if SameText(pairs[|pairs| - 1].0, name) then Some(pairs[|pairs| - 1].1)
    else LastValue(pairs[..|pairs| - 1], name)
  }

  /** Position of the first pair whose name is `name`, ignoring case; the length if there is none. */
  function FirstSeen(pairs: seq<Pair>, name: bytes): (i: nat)
    ensures i <= |pairs|
    ensures i < |pairs| ==> SameText(pairs[i].0, name)
    ensures forall j :: 0 <= j < i ==> !SameText(pairs[j].0, name)
  {
    if pairs == [] then 0
    else
      var i := FirstSeen(pairs[..|pairs| - 1], name);
      if i < |pairs| - 1 || SameText(pairs[i].0, name) then i else |pairs|
  }

  lemma {:induction false} LatestIsLast(pairs: seq<Pair>, name: bytes)
    ensures Lower(name) == name ==>
              LastValue(pairs, name) == if name in Latest(pairs) then Some(Latest(pairs)[name]) else None
    ensures name in Latest(pairs) <==> name in NamesInOrder(pairs)
    ensures name in NamesInOrder(pairs) ==> Lower(name) == name
  {
    if pairs != [] {
      LatestIsLast(pairs[..|pairs| - 1], name);
      LowerIdempotent(pairs[|pairs| - 1].0);
      LowerIff(pairs[|pairs| - 1].0, name);
    }
  }

  ghost predicate InFirstSeenOrder(pairs: seq<Pair>, names: seq<bytes>) {
    forall i, j :: 0 <= i < j < |names| ==> FirstSeen(pairs, names[i]) < FirstSeen(pairs, names[j])
  }

  /** Whether the first occurrence of a lower-case name is in the part before the last pair. */
  lemma FirstSeenLower(pairs: seq<Pair>, name: bytes)
    requires pairs != [] && Lower(name) == name
    ensures var i := FirstSeen(pairs[..|pairs| - 1], name);
            FirstSeen(pairs, name) == if i < |pairs| - 1 || Lower(pairs[|pairs| - 1].0) == name then i else |pairs|
  {
    LowerIff(pairs[|pairs| - 1].0, name);
  }

  lemma {:induction false} NamesOrdered(pairs: seq<Pair>)
    ensures InFirstSeenOrder(pairs, NamesInOrder(pairs))
    ensures forall n :: Lower(n) == n ==> (n in NamesInOrder(pairs) <==> FirstSeen(pairs, n) < |pairs|)
    ensures forall n :: n in NamesInOrder(pairs) ==> Lower(n) == n
  {
    if pairs != [] {
      var init, last := pairs[..|pairs| - 1], Lower(pairs[|pairs| - 1].0);
      NamesOrdered(init);
      LowerIdempotent(pairs[|pairs| - 1].0);
      var before, names := NamesInOrder(init), NamesInOrder(pairs);
      forall n | Lower(n) == n ensures n in names <==> FirstSeen(pairs, n) < |pairs| {
        FirstSeenLower(pairs, n);
        assert n in names <==> n in before || n == last;
      }
      forall i, j | 0 <= i < j < |names| ensures FirstSeen(pairs, names[i]) < FirstSeen(pairs, names[j]) {
        assert names[i] == before[i] && before[i] in before;
        assert names[j] in names;
        FirstSeenLower(pairs, names[i]);
        FirstSeenLower(pairs, names[j]);
        if j < |before| {
          assert names[j] == before[j] && before[j] in before;
        }
      }
    }
  }

  function Names(items: seq<OptionValue>): (names: seq<bytes>)
    ensures |names| == |items|
  {
    seq(|items|, i requires 0 <= i < |items| => Name(items[i]))
  }

  ghost predicate CollectedFrom(names: seq<bytes>, latest: map<bytes, bytes>, o: OptionValue) {
    Name(o) in names && Name(o) in latest && Parse(Name(o), latest[Name(o)]) == Ok(o)
  }

  lemma {:induction false} Collected(pairs: seq<Pair>, names: seq<bytes>, latest: map<bytes, bytes>)
    requires InFirstSeenOrder(pairs, names)
    requires forall n :: n in names ==> Lower(n) == n
    ensures forall o :: o in Collect(names, latest) <==> CollectedFrom(names, latest, o)
    ensures InFirstSeenOrder(pairs, Names(Collect(names, latest)))
  {
    if names != [] {
      var init, name := names[..|names| - 1], names[|names| - 1];
      Collected(pairs, init, latest);
      var items := Collect(init, latest);
      assert names == init + [name];
      assert name !in init;
      if name in latest && Parse(name, latest[name]).Ok? {
        var o := Parse(name, latest[name]).value;
        ParsedName(name, latest[name]);
        InsertedNew(items, o);
        CollectedOrder(pairs, init, name, items, o);
      } else {
        forall o: OptionValue ensures CollectedFrom(names, latest, o) <==> CollectedFrom(init, latest, o) {
        }
      }
    }
  }

  lemma CollectedOrder(pairs: seq<Pair>, init: seq<bytes>, name: bytes, items: seq<OptionValue>, o: OptionValue)
    requires InFirstSeenOrder(pairs, init + [name]) && InFirstSeenOrder(pairs, Names(items))
    requires forall x :: x in items ==> Name(x) in init
    requires Name(o) == name
    ensures InFirstSeenOrder(pairs, Names(items + [o]))
  {
    var names := Names(items + [o]);
    forall i, j | 0 <= i < j < |names| ensures FirstSeen(pairs, names[i]) < FirstSeen(pairs, names[j]) {
      if j < |items| {
        assert names[i] == Names(items)[i] && names[j] == Names(items)[j];
      } else {
        assert items[i] in items;
        var k :| 0 <= k < |init| && init[k] == names[i];
        assert (init + [name])[k] == names[i] && (init + [name])[|init|] == name;
      }
    }
  }

  /** A known option is present if and only if the last occurrence of its name, ignoring case,
      parses, and then with that value; options appear in order of first occurrence of their
      names, so no kind appears twice. */
  lemma FromPairsMeaning(pairs: seq<Pair>)
    ensures forall o :: o in FromPairs(pairs) <==>
              LastValue(pairs, Name(o)).Some? && Parse(Name(o), LastValue(pairs, Name(o)).value) == Ok(o)
    ensures InFirstSeenOrder(pairs, Names(FromPairs(pairs)))
    ensures Distinct(FromPairs(pairs))
    ensures forall o :: o in FromPairs(pairs) ==> InRange(o)
  {
    NamesOrdered(pairs);
    Collected(pairs, NamesInOrder(pairs), Latest(pairs));
    forall o: OptionValue
      ensures o in FromPairs(pairs) <==> LastValue(pairs, Name(o)).Some? && Parse(Name(o), LastValue(pairs, Name(o)).value) == Ok(o)
      ensures o in FromPairs(pairs) ==> InRange(o)
    {
      MemberMeaning(pairs, o, FromPairs(pairs));
    }
    OrderedDistinct(pairs, FromPairs(pairs));
  }

  lemma MemberMeaning(pairs: seq<Pair>, o: OptionValue, items: seq<OptionValue>)
    requires o in items <==> CollectedFrom(NamesInOrder(pairs), Latest(pairs), o)
    ensures o in items <==> LastValue(pairs, Name(o)).Some? && Parse(Name(o), LastValue(pairs, Name(o)).value) == Ok(o)
    ensures o in items ==> InRange(o)
  {
    NamesDiffer();
    LatestIsLast(pairs, Name(o));
    if o in items {
      ParseSound(Name(o), LastValue(pairs, Name(o)).value);
    }
  }

  lemma OrderedDistinct(pairs: seq<Pair>, items: seq<OptionValue>)
    requires InFirstSeenOrder(pairs, Names(items))
    ensures Distinct(items)
  {
    forall i, j | 0 <= i < j < |items| ensures Name(items[i]) != Name(items[j]) {
      NamesAt(items, i);
      NamesAt(items, j);
      FirstSeenBefore(pairs, Names(items), i, j, Name(items[i]), Name(items[j]));
    }
  }

  // ---------- the same, with every spelling written out ----------

  lemma {:induction false} LastValueAt(pairs: seq<Pair>, name: bytes) returns (i: nat)
    ensures i <= |pairs| && forall j :: i < j < |pairs| ==> !SameText(pairs[j].0, name)
    ensures i < |pairs| ==> SameText(pairs[i].0, name) && LastValue(pairs, name) == Some(pairs[i].1)
    ensures i == |pairs| ==> LastValue(pairs, name) == None && forall j :: 0 <= j < |pairs| ==> !SameText(pairs[j].0, name)
  {
    i := 0;
    if pairs != [] {
      var n := |pairs| - 1;
      if SameText(pairs[n].0, name) {
        i := n;
      } else {
        i := LastValueAt(pairs[..n], name);
        if i == n {
          i := n + 1;
        }
      }
    }
  }

  /** What a peer's option list means: an option is taken over exactly when the last pair that
      spells its kind, in any mixture of cases, carries its value in decimal and the value is
      allowed. Nothing else in the list matters. */
  lemma OptionsHeard(pairs: seq<Pair>, o: OptionValue)
    ensures o in FromPairs(pairs) <==>
            exists i: nat :: i < |pairs| && LastSpelled(pairs, i, o) && Allowed(o) && Decimal(pairs[i].1, Number(o))
  {
    FromPairsMeaning(pairs);
    var at := LastValueAt(pairs, Name(o));
    forall i: nat | i < |pairs|
      ensures LastSpelled(pairs, i, o) <==> i == at
    {
      SpelledIff(o, pairs[i].0);
      forall j | i < j < |pairs| ensures Spelled(o, pairs[j].0) <==> SameText(pairs[j].0, Name(o)) {
        SpelledIff(o, pairs[j].0);
      }
    }
    if at < |pairs| {
      ParseIff(Name(o), pairs[at].1, o);
      SpelledIff(o, Name(o));
    }
  }

  ghost predicate LastSpelled(pairs: seq<Pair>, i: nat, o: OptionValue)
    requires i < |pairs|
  {
    Spelled(o, pairs[i].0) && forall j :: i < j < |pairs| ==> !Spelled(o, pairs[j].0)
  }

  /** Two lists whose names differ in case only. */
  ghost predicate SamePairs(p: seq<Pair>, q: seq<Pair>) {
    |p| == |q| && forall i :: 0 <= i < |p| ==> SameText(p[i].0, q[i].0) && p[i].1 == q[i].1
  }

  lemma {:induction false} FoldedAlike(p: seq<Pair>, q: seq<Pair>)
    requires SamePairs(p, q)
    ensures NamesInOrder(p) == NamesInOrder(q) && Latest(p) == Latest(q)
  {
    if p != [] {
      FoldedAlike(p[..|p| - 1], q[..|q| - 1]);
      LowerIff(p[|p| - 1].0, q[|q| - 1].0);
    }
  }

  /** The case of an option's name never matters. */
  lemma FromPairsIgnoresCase(p: seq<Pair>, q: seq<Pair>)
    requires SamePairs(p, q)
    ensures FromPairs(p) == FromPairs(q)
  {
    FoldedAlike(p, q);
  }

  lemma FirstSeenIs(pairs: seq<Pair>, name: bytes, i: nat)
    requires i <= |pairs| && forall j :: 0 <= j < i ==> !SameText(pairs[j].0, name)
    requires i < |pairs| ==> SameText(pairs[i].0, name)
    ensures FirstSeen(pairs, name) == i
  {
  }

  /** `less` is `all` without the pair at position `k`. */
  ghost predicate Removed(all: seq<Pair>, k: nat, less: seq<Pair>) {
    && k < |all| == |less| + 1
    && (forall j :: 0 <= j < k ==> all[j] == less[j])
    && (forall j :: k < j < |all| ==> all[j] == less[j - 1])
    && (forall j :: k <= j < |less| ==> less[j] == all[j + 1])
  }

  /** A pair with another name only shifts positions. */
  lemma LastElsewhere(all: seq<Pair>, k: nat, less: seq<Pair>, name: bytes)
    requires Removed(all, k, less) && !SameText(all[k].0, name)
    ensures LastValue(all, name) == LastValue(less, name)
  {
    var i := LastValueAt(all, name);
    var m := LastValueAt(less, name);
    LastUnique(all, name, i, if m < k then m else m + 1);
  }

  lemma FirstElsewhere(all: seq<Pair>, k: nat, less: seq<Pair>, name: bytes)
    requires Removed(all, k, less) && !SameText(all[k].0, name)
    ensures var i := FirstSeen(all, name); i != k && FirstSeen(less, name) == if i < k then i else i - 1
  {
    var i := FirstSeen(all, name);
    FirstSeenIs(less, name, if i < k then i else i - 1);
  }

  lemma LastUnique(pairs: seq<Pair>, name: bytes, i: nat, k: nat)
    requires i <= |pairs| && forall j :: i < j < |pairs| ==> !SameText(pairs[j].0, name)
    requires i < |pairs| ==> SameText(pairs[i].0, name)
    requires i == |pairs| ==> forall j :: 0 <= j < |pairs| ==> !SameText(pairs[j].0, name)
    requires k <= |pairs| && forall j :: k < j < |pairs| ==> !SameText(pairs[j].0, name)
    requires k < |pairs| ==> SameText(pairs[k].0, name)
    requires k == |pairs| ==> forall j :: 0 <= j < |pairs| ==> !SameText(pairs[j].0, name)
    ensures i == k
  {
  }

  /** A pair that spells no known option might as well not be there. */
  lemma UnknownDropped(all: seq<Pair>, k: nat, less: seq<Pair>)
    requires Removed(all, k, less) && forall o :: !Spelled(o, all[k].0)
    ensures FromPairs(all) == FromPairs(less)
  {
    var items := FromPairs(all);
    FromPairsMeaning(all);
    forall o: OptionValue
      ensures LastValue(all, Name(o)) == LastValue(less, Name(o))
    {
      SpelledIff(o, all[k].0);
      LastElsewhere(all, k, less, Name(o));
    }
    forall i, j | 0 <= i < j < |items|
      ensures FirstSeen(less, Names(items)[i]) < FirstSeen(less, Names(items)[j])
    {
      StillBefore(all, k, less, items, i, j);
    }
    FromPairsUnique(less, items);
  }

  lemma StillBefore(all: seq<Pair>, k: nat, less: seq<Pair>, items: seq<OptionValue>, i: nat, j: nat)
    requires Removed(all, k, less) && forall o :: !Spelled(o, all[k].0)
    requires i < j < |items| && InFirstSeenOrder(all, Names(items))
    ensures FirstSeen(less, Names(items)[i]) < FirstSeen(less, Names(items)[j])
  {
    NamesAt(items, i);
    NamesAt(items, j);
    SpelledIff(items[i], all[k].0);
    SpelledIff(items[j], all[k].0);
    FirstElsewhere(all, k, less, Name(items[i]));
    FirstElsewhere(all, k, less, Name(items[j]));
    FirstSeenBefore(all, Names(items), i, j, Name(items[i]), Name(items[j]));
  }

  lemma SomeMember(a: seq<OptionValue>)
    ensures a != [] <==> exists o :: o in a
  {
    if a != [] {
      assert a[0] in a;
    }
  }

  lemma {:induction false} OrderedSame(pairs: seq<Pair>, a: seq<OptionValue>, b: seq<OptionValue>)
    requires InFirstSeenOrder(pairs, Names(a)) && InFirstSeenOrder(pairs, Names(b))
    requires forall o :: o in a <==> o in b
    ensures a == b
  {
    SomeMember(a);
    SomeMember(b);
    if a != [] {
      var a', b' := a[..|a| - 1], b[..|b| - 1];
      var x, y := a[|a| - 1], b[|b| - 1];
      OrderedInit(pairs, a);
      OrderedInit(pairs, b);
      assert a == a' + [x] && b == b' + [y];
      assert x in b && y in a;
      if x in b' && y in a' {
        OrderedBelow(pairs, b, x);
        OrderedBelow(pairs, a, y);
      }
      forall o ensures o in a' <==> o in b' {
        if o in a' {
          OrderedBelow(pairs, a, o);
        }
        if o in b' {
          OrderedBelow(pairs, b, o);
        }
        assert o in a <==> o in a' || o == x;
        assert o in b <==> o in b' || o == y;
      }
      OrderedSame(pairs, a', b');
    }
  }

  lemma OrderedInit(pairs: seq<Pair>, a: seq<OptionValue>)
    requires a != [] && InFirstSeenOrder(pairs, Names(a))
    ensures InFirstSeenOrder(pairs, Names(a[..|a| - 1]))
  {
    assert Names(a[..|a| - 1]) == Names(a)[..|a| - 1];
  }

  lemma OrderedBelow(pairs: seq<Pair>, a: seq<OptionValue>, o: OptionValue)
    requires a != [] && InFirstSeenOrder(pairs, Names(a)) && o in a[..|a| - 1]
    ensures FirstSeen(pairs, Name(o)) < FirstSeen(pairs, Name(a[|a| - 1]))
  {
    var i := PositionOf(a, o);
    NamesAt(a, i);
    NamesAt(a, |a| - 1);
    FirstSeenBefore(pairs, Names(a), i, |a| - 1, Name(o), Name(a[|a| - 1]));
  }

  lemma PositionOf(a: seq<OptionValue>, o: OptionValue) returns (i: nat)
    requires a != [] && o in a[..|a| - 1]
    ensures i < |a| - 1 && a[i] == o
  {
    i :| i < |a| - 1 && a[i] == o;
  }

  lemma NamesAt(items: seq<OptionValue>, i: nat)
    requires i < |items|
    ensures Names(items)[i] == Name(items[i])
  {
  }

  lemma FirstSeenBefore(pairs: seq<Pair>, names: seq<bytes>, i: nat, j: nat, first: bytes, second: bytes)
    requires InFirstSeenOrder(pairs, names) && i < j < |names| && names[i] == first && names[j] == second
    ensures FirstSeen(pairs, first) < FirstSeen(pairs, second)
  {
  }

  /** The specification leaves no choice: membership and order determine the option set. */
  lemma FromPairsUnique(pairs: seq<Pair>, items: seq<OptionValue>)
    requires forall o :: o in items <==>
               LastValue(pairs, Name(o)).Some? && Parse(Name(o), LastValue(pairs, Name(o)).value) == Ok(o)
    requires InFirstSeenOrder(pairs, Names(items))
    ensures items == FromPairs(pairs)
  {
    FromPairsMeaning(pairs);
    OrderedSame(pairs, items, FromPairs(pairs));
  }

  // ---------- options on the wire and back ----------

  function ToPairs(items: seq<OptionValue>): (pairs: seq<Pair>)
    ensures |pairs| == |items|
  {
    seq(|items|, i requires 0 <= i < |items| => (Name(items[i]), ValueString(items[i])))
  }

  /** The options a parser on the other side will keep. */
  function Acceptable(items: seq<OptionValue>): seq<OptionValue> {
    if items == [] then []
    else
      var init := Acceptable(items[..|items| - 1]);
      if InRange(items[|items| - 1]) then init + [items[|items| - 1]] else init
  }

  lemma {:induction false} AcceptableMembers(items: seq<OptionValue>)
    ensures forall o :: o in Acceptable(items) <==> o in items && InRange(o)
  {
    if items != [] {
      AcceptableMembers(items[..|items| - 1]);
      assert forall o :: o in items <==> o in items[..|items| - 1] || o == items[|items| - 1];
    }
  }

  lemma {:induction false} AcceptableAll(items: seq<OptionValue>)
    requires forall o :: o in items ==> InRange(o)
    ensures Acceptable(items) == items
  {
    if items != [] {
      AcceptableAll(items[..|items| - 1]);
    }
  }

  lemma {:induction false} ToPairsNames(items: seq<OptionValue>)
    requires Distinct(items)
    ensures NamesInOrder(ToPairs(items)) == Names(items)
  {
    if items != [] {
      var init, last := items[..|items| - 1], items[|items| - 1];
      ToPairsNames(init);
      assert ToPairs(items)[..|items| - 1] == ToPairs(init);
      ParseEncoded(last);
      assert Names(items) == Names(init) + [Name(last)];
      NotNamed(items);
    }
  }

  lemma NotNamed(items: seq<OptionValue>)
    requires Distinct(items) && items != []
    ensures Name(items[|items| - 1]) !in Names(items[..|items| - 1])
  {
    var init := items[..|items| - 1];
    forall i | 0 <= i < |init| ensures Names(init)[i] != Name(items[|items| - 1]) {
      assert init[i] == items[i];
    }
  }

  lemma {:induction false} ToPairsLatest(items: seq<OptionValue>, o: OptionValue)
    requires Distinct(items) && o in items
    ensures Name(o) in Latest(ToPairs(items)) && Latest(ToPairs(items))[Name(o)] == ValueString(o)
  {
    var init, last := items[..|items| - 1], items[|items| - 1];
    var pairs := ToPairs(items);
    assert pairs[..|pairs| - 1] == ToPairs(init);
    assert pairs[|pairs| - 1] == (Name(last), ValueString(last));
    ParseEncoded(last);
    assert Latest(pairs) == Latest(ToPairs(init))[Name(last) := ValueString(last)];
    if o != last {
      assert o in init && Name(o) != Name(last);
      ToPairsLatest(init, o);
    }
  }

  lemma {:induction false} CollectEncoded(items: seq<OptionValue>, latest: map<bytes, bytes>)
    requires Distinct(items)
    requires forall o :: o in items ==> Name(o) in latest && latest[Name(o)] == ValueString(o)
    ensures Collect(Names(items), latest) == Acceptable(items)
  {
    if items != [] {
      var init, last := items[..|items| - 1], items[|items| - 1];
      CollectEncoded(init, latest);
      assert Names(items)[..|items| - 1] == Names(init);
      ParseEncoded(last);
      AcceptableMembers(init);
      assert forall o :: o in init ==> Name(o) != Name(last);
      if InRange(last) {
        InsertedNew(Acceptable(init), last);
      }
    }
  }

  /** Printing an option set and reading it back keeps exactly the options in range, in order. */
  lemma OptionsRoundTrip(items: seq<OptionValue>)
    requires Distinct(items)
    ensures FromPairs(ToPairs(items)) == Acceptable(items)
  {
    ToPairsNames(items);
    forall o | o in items
      ensures Name(o) in Latest(ToPairs(items)) && Latest(ToPairs(items))[Name(o)] == ValueString(o)
    {
      ToPairsLatest(items, o);
    }
    CollectEncoded(items, Latest(ToPairs(items)));
  }
}
