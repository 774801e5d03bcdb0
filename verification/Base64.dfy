/** The hand-written base64 coder of the JSON-web-token utility (and of the session's
    Basic-credential decoder), against the bit-stream reading of sections 4 and 5 of RFC 4648.

    A run of octets and a run of six-bit groups are both read as one unbounded big-endian
    number. Encoding regroups that number after padding it with zero bits, decoding regroups
    it after dropping the incomplete last octet. The methods below work on a machine word. */
module Base64 {

  type Byte = b: int | 0 <= b < 256
  type Sextet = d: int | 0 <= d < 64

  // ----- numbers and digits ----------------------------------------------------------

  function Pow2(k: nat): (r: nat)
    ensures r > 0
  {
    if k == 0 then 1 else 2 * Pow2(k - 1)
  }

  function ByteNumber(s: seq<Byte>): nat {
    if s == [] then 0 else 256 * ByteNumber(s[..|s| - 1]) + s[|s| - 1]
  }

  function SextetNumber(s: seq<Sextet>): nat {
    if s == [] then 0 else 64 * SextetNumber(s[..|s| - 1]) + s[|s| - 1]
  }

  /** The last k base-256 digits of n, most significant first. */
  function BytesOf(n: nat, k: nat): (s: seq<Byte>)
    ensures |s| == k
  {
    if k == 0 then [] else BytesOf(n / 256, k - 1) + [n % 256]
  }

  function SextetsOf(n: nat, k: nat): (s: seq<Sextet>)
    ensures |s| == k
  {
    if k == 0 then [] else SextetsOf(n / 64, k - 1) + [n % 64]
  }

  lemma {:induction false} BytesOfNumber(s: seq<Byte>)
    ensures BytesOf(ByteNumber(s), |s|) == s
  {
    if s != [] {
      BytesOfNumber(s[..|s| - 1]);
      assert s == s[..|s| - 1] + [s[|s| - 1]];
    }
  }

  lemma {:induction false} SextetsOfNumber(s: seq<Sextet>)
    ensures SextetsOf(SextetNumber(s), |s|) == s
  {
    if s != [] {
      SextetsOfNumber(s[..|s| - 1]);
      assert s == s[..|s| - 1] + [s[|s| - 1]];
    }
  }

  /** k digits suffice for a number below base^k. */
  lemma {:induction false} SextetNumberOf(n: nat, k: nat)
    requires n < Pow2(6 * k)
    ensures SextetNumber(SextetsOf(n, k)) == n
  {
    if k > 0 {
      assert Pow2(6 * k) == 64 * Pow2(6 * (k - 1)) by { PowerStep(6 * (k - 1)); }
      SextetNumberOf(n / 64, k - 1);
      var s := SextetsOf(n, k);
      assert s[..|s| - 1] == SextetsOf(n / 64, k - 1);
    }
  }

  lemma {:induction false} ByteNumberBound(s: seq<Byte>)
    ensures ByteNumber(s) < Pow2(8 * |s|)
  {
    if s != [] {
      ByteNumberBound(s[..|s| - 1]);
      PowerStep(8 * (|s| - 1));
    }
  }

  lemma {:induction false} PowerStep(k: nat)
    ensures Pow2(k + 2) == 4 * Pow2(k)
    ensures Pow2(k + 4) == 16 * Pow2(k)
    ensures Pow2(k + 6) == 64 * Pow2(k)
    ensures Pow2(k + 8) == 256 * Pow2(k)
  {
    assert Pow2(k + 1) == 2 * Pow2(k);
    assert Pow2(k + 2) == 2 * Pow2(k + 1);
    assert Pow2(k + 3) == 2 * Pow2(k + 2);
    assert Pow2(k + 4) == 2 * Pow2(k + 3);
    assert Pow2(k + 5) == 2 * Pow2(k + 4);
    assert Pow2(k + 6) == 2 * Pow2(k + 5);
    assert Pow2(k + 7) == 2 * Pow2(k + 6);
    assert Pow2(k + 8) == 2 * Pow2(k + 7);
  }

  /** n with p more zero bits, and n without its last p bits, for p in {0, 2, 4, 6}. */
  function AppendZeros(n: nat, p: nat): nat {
    if p == 0 then n else if p == 2 then 4 * n else if p == 4 then 16 * n else 64 * n
  }

  function DropBits(n: int, p: nat): int {
    if p == 0 then n else if p == 2 then n / 4 else if p == 4 then n / 16 else n / 64
  }

  // ----- alphabets -------------------------------------------------------------------

  /** The standard alphabet: A-Z, a-z, 0-9, '+', '/'. */
  function Symbol(d: Sextet): char {
    if d < 26 then 'A' + (d as char)
    else if d < 52 then 'a' + ((d - 26) as char)
    else if d < 62 then '0' + ((d - 52) as char)
    else if d == 62 then '+' else '/'
  }

  /** The decoder's table: both alphabets, -1 for every other character. */
  function TableValue(c: char): (v: int)
    ensures -1 <= v < 64
  {
    if 'A' <= c <= 'Z' then c as int - 'A' as int
    else if 'a' <= c <= 'z' then c as int - 'a' as int + 26
    else if '0' <= c <= '9' then c as int - '0' as int + 52
    else if c == '+' || c == '-' then 62
    else if c == '/' || c == '_' then 63
    else -1
  }

  predicate InAlphabet(c: char) { TableValue(c) != -1 }

  /** Members of the standard alphabet alone, as the session's own table has them. */
  predicate InStandardAlphabet(c: char) { InAlphabet(c) && c != '-' && c != '_' }

  function Symbols(s: seq<Sextet>): (t: string)
    ensures |t| == |s|
    ensures forall i :: 0 <= i < |s| ==> t[i] == Symbol(s[i])
  {
    seq(|s|, i requires 0 <= i < |s| => Symbol(s[i]))
  }

  /** The six-bit values of the characters that are in an alphabet; the rest is skipped. */
  function Sextets(text: string): (s: seq<Sextet>)
    ensures |s| <= |text|
  {
    if text == [] then []
    else
      var front, c := Sextets(text[..|text| - 1]), text[|text| - 1];
      if InAlphabet(c) then front + [TableValue(c)] else front
  }

  /** The alphabet of section 4 of RFC 4648. */
  lemma AlphabetIs(d: Sextet)
    ensures Symbol(d) == ("ABCDEFGHIJKLMNOPQRSTUVWXYZ" + "abcdefghijklmnopqrstuvwxyz" + "0123456789+/")[d]
  {
  }

  lemma SymbolValue(d: Sextet)
    ensures TableValue(Symbol(d)) == d && InStandardAlphabet(Symbol(d))
  {
  }

  lemma {:induction false} SextetsOfSymbols(s: seq<Sextet>)
    ensures Sextets(Symbols(s)) == s
    ensures forall i :: 0 <= i < |s| ==> InStandardAlphabet(Symbols(s)[i])
  {
    if s != [] {
      SextetsOfSymbols(s[..|s| - 1]);
      SymbolValue(s[|s| - 1]);
      assert Symbols(s)[..|s| - 1] == Symbols(s[..|s| - 1]);
    }
  }

  lemma {:induction false} SymbolsOfSextets(text: string)
    requires forall i :: 0 <= i < |text| ==> InStandardAlphabet(text[i])
    ensures Symbols(Sextets(text)) == text
  {
    if text != [] {
      SymbolsOfSextets(text[..|text| - 1]);
    }
  }

  function Group(c: char): seq<Sextet> { if InAlphabet(c) then [TableValue(c)] else [] }

  lemma {:induction false} SextetsPush(text: string, c: char)
    ensures Sextets(text + [c]) == Sextets(text) + Group(c)
  {
    assert (text + [c])[..|text|] == text;
  }

  lemma {:induction false} SextetsConcat(a: string, b: string)
    ensures Sextets(a + b) == Sextets(a) + Sextets(b)
  {
    if b == [] {
      assert a + b == a;
    } else {
      var front, c := b[..|b| - 1], b[|b| - 1];
      SextetsConcat(a, front);
      SextetsPush(a + front, c);
      SextetsPush(front, c);
      assert b == front + [c] && a + b == a + front + [c];
      assert Sextets(a) + (Sextets(front) + Group(c)) == Sextets(a) + Sextets(front) + Group(c);
    }
  }

  // ----- the two regroupings ---------------------------------------------------------

  /** Six-bit groups needed for n octets, and the zero bits that fill up the last one. */
  function GroupCount(n: nat): nat { (8 * n + 5) / 6 }

  function PadBits(n: nat): (p: nat)
    ensures p == 0 || p == 2 || p == 4
  {
    6 * GroupCount(n) - 8 * n
  }

  function EncodedSextets(data: seq<Byte>): seq<Sextet> {
    SextetsOf(AppendZeros(ByteNumber(data), PadBits(|data|)), GroupCount(|data|))
  }

  /** Base64 without padding. */
  function Encode(data: seq<Byte>): string { Symbols(EncodedSextets(data)) }

  /** Bits of m six-bit groups that do not fill an octet. */
  function SpareBits(m: nat): (p: nat)
    ensures p == 0 || p == 2 || p == 4 || p == 6
  {
    6 * m % 8
  }

  function DecodeSextets(s: seq<Sextet>): (r: seq<Byte>) {
    BytesOf(DropBits(SextetNumber(s), SpareBits(|s|)), 6 * |s| / 8)
  }

  /** What a text decodes to when its groups are read as one unbounded bit stream. */
  function Decode(text: string): seq<Byte> { DecodeSextets(Sextets(text)) }

  /** With padding to a multiple of four, as section 4 of RFC 4648 has it. */
  function Padding(n: nat): string {
    if n % 3 == 1 then "==" else if n % 3 == 2 then "=" else ""
  }

  function EncodePadded(data: seq<Byte>): string { Encode(data) + Padding(|data|) }

  // ----- laws ------------------------------------------------------------------------

  lemma {:induction false} EncodedNumber(data: seq<Byte>)
    ensures SextetNumber(EncodedSextets(data)) == AppendZeros(ByteNumber(data), PadBits(|data|))
    ensures |EncodedSextets(data)| == GroupCount(|data|)
  {
    var n := |data|;
    ByteNumberBound(data);
    PowerStep(8 * n);
    assert 6 * GroupCount(n) == 8 * n + PadBits(n);
    assert AppendZeros(ByteNumber(data), PadBits(n)) < Pow2(8 * n + PadBits(n));
    SextetNumberOf(AppendZeros(ByteNumber(data), PadBits(n)), GroupCount(n));
  }

  lemma {:induction false} GroupsCarry(n: nat)
    ensures SpareBits(GroupCount(n)) == PadBits(n)
    ensures 6 * GroupCount(n) / 8 == n
  {
    assert 6 * GroupCount(n) == 8 * n + PadBits(n);
  }

  /** Decoding undoes encoding, for octet strings of every length. */
  lemma {:induction false} RoundTrip(data: seq<Byte>)
    ensures Decode(Encode(data)) == data
  {
    var s := EncodedSextets(data);
    SextetsOfSymbols(s);
    EncodedNumber(data);
    GroupsCarry(|data|);
    assert DropBits(SextetNumber(s), SpareBits(|s|)) == ByteNumber(data);
    BytesOfNumber(data);
  }

  /** Padding, and anything else outside the alphabets, does not change the result. */
  lemma {:induction false} ForeignCharactersIgnored(a: string, junk: string, b: string)
    requires forall i :: 0 <= i < |junk| ==> !InAlphabet(junk[i])
    ensures Decode(a + junk + b) == Decode(a + b)
  {
    NoSextets(junk);
    SextetsConcat(a + junk, b);
    SextetsConcat(a, junk);
    SextetsConcat(a, b);
    assert Sextets(a) + [] == Sextets(a);
  }

  lemma {:induction false} NoSextets(junk: string)
    requires forall i :: 0 <= i < |junk| ==> !InAlphabet(junk[i])
    ensures Sextets(junk) == []
  {
    if junk != [] {
      NoSextets(junk[..|junk| - 1]);
    }
  }

  function UrlSafe(text: string): (t: string)
    ensures |t| == |text|
  {
    seq(|text|, i requires 0 <= i < |text| =>
      if text[i] == '+' then '-' else if text[i] == '/' then '_' else text[i])
  }

  /** The two alphabets are interchangeable, character by character. */
  lemma {:induction false} AlphabetsAgree(a: string, b: string)
    requires UrlSafe(a) == UrlSafe(b)
    ensures Decode(a) == Decode(b)
  {
    UrlSafeSextets(a);
    UrlSafeSextets(b);
  }

  lemma {:induction false} UrlSafeSextets(text: string)
    ensures Sextets(UrlSafe(text)) == Sextets(text)
  {
    if text != [] {
      UrlSafeSextets(text[..|text| - 1]);
      assert UrlSafe(text)[..|text| - 1] == UrlSafe(text[..|text| - 1]);
    }
  }

  /** Exactly the canonical texts survive decoding and encoding again: standard alphabet
      only, no lone last character, and zero bits in what the last octet leaves over. */
  predicate EndsInZeros(n: nat, p: nat) { AppendZeros(DropBits(n, p), p) == n }

  predicate Canonical(text: string) {
    && (forall i :: 0 <= i < |text| ==> InStandardAlphabet(text[i]))
    && |text| % 4 != 1
    && (|text| > 0 ==> EndsInZeros(TableValue(text[|text| - 1]), SpareBits(|text|)))
  }

  lemma {:induction false} CanonicalRoundTrip(text: string)
    ensures Encode(Decode(text)) == text <==> Canonical(text)
  {
    if forall i :: 0 <= i < |text| ==> InStandardAlphabet(text[i]) {
      StandardRoundTrip(text);
      if |text| % 4 != 1 {
        LastSextet(text);
      }
    } else {
      EncodedIsStandard(Decode(text));
    }
  }

  lemma {:induction false} EncodedIsStandard(data: seq<Byte>)
    ensures forall i :: 0 <= i < |Encode(data)| ==> InStandardAlphabet(Encode(data)[i])
    ensures Sextets(Encode(data)) == EncodedSextets(data)
  {
    SextetsOfSymbols(EncodedSextets(data));
  }

  lemma {:induction false} StandardRoundTrip(text: string)
    requires forall i :: 0 <= i < |text| ==> InStandardAlphabet(text[i])
    ensures |Sextets(text)| == |text|
    ensures Encode(Decode(text)) == text
       <==> |text| % 4 != 1 && EndsInZeros(SextetNumber(Sextets(text)), SpareBits(|text|))
  {
    SymbolsOfSextets(text);
    RegroupedNumber(Sextets(text));
    EncodedIsStandard(Decode(text));
  }

  lemma {:induction false} RegroupedNumber(s: seq<Sextet>)
    ensures EncodedSextets(DecodeSextets(s)) == s
       <==> |s| % 4 != 1 && EndsInZeros(SextetNumber(s), SpareBits(|s|))
  {
    var data := DecodeSextets(s);
    var e := EncodedSextets(data);
    DecodedNumber(s);
    EncodedNumber(data);
    RegroupedCount(|s|);
    SextetsOfNumber(e);
    SextetsOfNumber(s);
  }

  lemma {:induction false} RegroupedCount(m: nat)
    ensures GroupCount(6 * m / 8) == m && PadBits(6 * m / 8) == SpareBits(m) <==> m % 4 != 1
  {
    var q := m / 4;
    if m % 4 == 0 {
      assert m == 4 * q && 6 * m / 8 == 3 * q && GroupCount(3 * q) == 4 * q;
    } else if m % 4 == 1 {
      assert m == 4 * q + 1 && 6 * m / 8 == 3 * q && GroupCount(3 * q) == 4 * q;
    } else if m % 4 == 2 {
      assert m == 4 * q + 2 && 6 * m / 8 == 3 * q + 1 && GroupCount(3 * q + 1) == 4 * q + 2;
    } else {
      assert m == 4 * q + 3 && 6 * m / 8 == 3 * q + 2 && GroupCount(3 * q + 2) == 4 * q + 3;
    }
  }

  lemma {:induction false} LastSextet(text: string)
    requires |text| > 0 ==> InAlphabet(text[|text| - 1])
    ensures |text| > 0 ==>
      forall p :: (EndsInZeros(SextetNumber(Sextets(text)), p)
                   <==> EndsInZeros(TableValue(text[|text| - 1]), p))
  {
    if |text| > 0 {
      var s, d := Sextets(text[..|text| - 1]), TableValue(text[|text| - 1]);
      PushedGroup(s, d);
      forall p ensures EndsInZeros(64 * SextetNumber(s) + d, p) <==> EndsInZeros(d, p) {
        LastDigitZeros(SextetNumber(s), d, p);
      }
    }
  }

  lemma {:induction false} LastDigitZeros(n: nat, d: Sextet, p: nat)
    ensures EndsInZeros(64 * n + d, p) <==> EndsInZeros(d, p)
  {
    if p == 2 {
      assert (64 * n + d) / 4 == 16 * n + d / 4;
    } else if p == 4 {
      assert (64 * n + d) / 16 == 4 * n + d / 16;
    } else {
      assert (64 * n + d) / 64 == n + d / 64;
    }
  }

  lemma {:induction false} DecodedNumber(s: seq<Sextet>)
    ensures |DecodeSextets(s)| == 6 * |s| / 8
    ensures ByteNumber(DecodeSextets(s)) == DropBits(SextetNumber(s), SpareBits(|s|))
  {
    var k, p := 6 * |s| / 8, SpareBits(|s|);
    SextetNumberBound(s);
    PowerStep(8 * k);
    assert 6 * |s| == 8 * k + p;
    ByteNumberOf(DropBits(SextetNumber(s), p), k);
  }

  lemma {:induction false} SextetNumberBound(s: seq<Sextet>)
    ensures SextetNumber(s) < Pow2(6 * |s|)
  {
    if s != [] {
      SextetNumberBound(s[..|s| - 1]);
      PowerStep(6 * (|s| - 1));
    }
  }

  lemma {:induction false} ByteNumberOf(n: nat, k: nat)
    requires n < Pow2(8 * k)
    ensures ByteNumber(BytesOf(n, k)) == n
  {
    if k > 0 {
      PowerStep(8 * (k - 1));
      ByteNumberOf(n / 256, k - 1);
      var s := BytesOf(n, k);
      assert s[..|s| - 1] == BytesOf(n / 256, k - 1);
    }
  }

  // ----- the encoder -----------------------------------------------------------------

  /** The octets at i, i+1 and i+2 in one word, zero where the data has ended. The fields do
      not overlap, so the source's `|=` is an addition. */
  function BlockWord(data: seq<Byte>, i: nat): (n: nat)
    requires i < |data|
    ensures n < 0x100_0000
  {
    data[i] as int * 0x10000
    + (if i + 1 < |data| then data[i + 1] as int * 0x100 else 0)
    + (if i + 2 < |data| then data[i + 2] else 0)
  }

  function BlockGroups(data: seq<Byte>, i: nat): (g: seq<Sextet>)
    requires i < |data|
  {
    var n := BlockWord(data, i);
    [n / 0x40000 % 64, n / 0x1000 % 64]
    + (if i + 1 < |data| then [n / 0x40 % 64] else [])
    + (if i + 2 < |data| then [n % 64] else [])
  }

  /** Three octets at a time through one word, '=' pushed for missing octets and popped
      again at the end. */
  method EncodeBytes(data: seq<Byte>) returns (result: string)
    ensures result == Encode(data)
  {
    result := "";
    var i := 0;
    ghost var groups: seq<Sextet> := [];
    BlocksStart(data);
    while i < |data|
      invariant Blocks(data, i, groups)
      invariant result == Symbols(groups) + MissingMarks(i, |data|)
      decreases |data| - i
    {
      var n := data[i] as int * 0x10000;
      if i + 1 < |data| { n := n + data[i + 1] as int * 0x100; }
      if i + 2 < |data| { n := n + data[i + 2]; }
      ghost var before := result;
      result := result + [Symbol(n / 0x40000 % 64)];
      result := result + [Symbol(n / 0x1000 % 64)];
      result := result + [if i + 1 < |data| then Symbol(n / 0x40 % 64) else '='];
      result := result + [if i + 2 < |data| then Symbol(n % 64) else '='];
      BlockStep(data, i, n, before, groups, result);
      groups := groups + BlockGroups(data, i);
      i := i + 3;
    }
    MarksBehind(groups, i, |data|);
    result := PopMarks(result, |groups|);
  }

  /** The marks at the end of a text are popped one by one. */
  method PopMarks(text: string, ghost n: nat) returns (result: string)
    requires n <= |text| && forall j :: 0 <= j < |text| ==> (text[j] == '=' <==> j >= n)
    ensures result == text[..n]
  {
    result := text;
    while result != "" && result[|result| - 1] == '='
      invariant n <= |result| <= |text| && result == text[..|result|]
      decreases |result|
    {
      result := result[..|result| - 1];
    }
  }

  lemma {:induction false} BlocksStart(data: seq<Byte>)
    ensures Blocks(data, 0, []) && "" == Symbols([]) + MissingMarks(0, |data|)
  {
    assert data[..0] == [];
  }

  /** The groups of the octets before i, or of all. */
  ghost predicate Blocks(data: seq<Byte>, i: nat, groups: seq<Sextet>) {
    && i % 3 == 0
    && (i <= |data| ==> |groups| == i / 3 * 4 && SextetNumber(groups) == ByteNumber(data[..i]))
    && (i >= |data| ==> groups == EncodedSextets(data))
  }

  lemma MarksBehind(groups: seq<Sextet>, i: nat, n: nat)
    ensures
      var text := Symbols(groups) + MissingMarks(i, n);
      && text[..|groups|] == Symbols(groups)
      && (forall j :: 0 <= j < |text| ==> (text[j] == '=' <==> j >= |groups|))
  {
  }

  lemma {:induction false} BlockStep(data: seq<Byte>, i: nat, n: nat, before: string, groups: seq<Sextet>,
                                     after: string)
    requires i < |data| && Blocks(data, i, groups) && n == BlockWord(data, i)
    requires before == Symbols(groups) + MissingMarks(i, |data|)
    requires after == before + [Symbol(n / 0x40000 % 64)] + [Symbol(n / 0x1000 % 64)]
      + [if i + 1 < |data| then Symbol(n / 0x40 % 64) else '=']
      + [if i + 2 < |data| then Symbol(n % 64) else '=']
    ensures
      var more := groups + BlockGroups(data, i);
      Blocks(data, i + 3, more) && after == Symbols(more) + MissingMarks(i + 3, |data|)
  {
    assert before == Symbols(groups);
    BlockText(data, i, before, groups);
    BlockNumber(data, i, groups);
    BlockLength(data, i, groups);
  }

  lemma BlockLength(data: seq<Byte>, i: nat, groups: seq<Sextet>)
    requires i < |data| && i % 3 == 0 && |groups| == i / 3 * 4
    ensures i + 3 <= |data| ==> |groups + BlockGroups(data, i)| == (i + 3) / 3 * 4
  {
  }

  /** One '=' for each octet the last block is short of. */
  function MissingMarks(i: nat, n: nat): string {
    if i == n + 2 then "==" else if i == n + 1 then "=" else ""
  }

  lemma BlockText(data: seq<Byte>, i: nat, before: string, groups: seq<Sextet>)
    requires i < |data| && before == Symbols(groups)
    ensures
      var n := BlockWord(data, i);
      before + [Symbol(n / 0x40000 % 64)] + [Symbol(n / 0x1000 % 64)]
        + [if i + 1 < |data| then Symbol(n / 0x40 % 64) else '=']
        + [if i + 2 < |data| then Symbol(n % 64) else '=']
      == Symbols(groups + BlockGroups(data, i)) + MissingMarks(i + 3, |data|)
  {
  }

  lemma {:induction false} BlockNumber(data: seq<Byte>, i: nat, before: seq<Sextet>)
    requires i < |data| && i % 3 == 0
    requires |before| == i / 3 * 4 && SextetNumber(before) == ByteNumber(data[..i])
    ensures
      var groups := before + BlockGroups(data, i);
      && (i + 3 <= |data| ==> SextetNumber(groups) == ByteNumber(data[..i + 3]))
      && (i + 3 >= |data| ==> groups == EncodedSextets(data))
  {
    var groups := before + BlockGroups(data, i);
    PushedBlock(data, i, before);
    BlockCount(i, |data|);
    PushedBytes(data, i);
    if i + 3 >= |data| {
      assert SextetNumber(groups) == AppendZeros(ByteNumber(data), PadBits(|data|));
      SextetsOfNumber(groups);
    }
  }

  lemma {:induction false} PushedBlock(data: seq<Byte>, i: nat, before: seq<Sextet>)
    requires i < |data|
    ensures
      var groups, k := before + BlockGroups(data, i), SextetNumber(before);
      if i + 1 == |data| then
        |groups| == |before| + 2 && SextetNumber(groups) == 0x1000 * k + 16 * (data[i] as int)
      else if i + 2 == |data| then
        |groups| == |before| + 3
        && SextetNumber(groups) == 0x40000 * k + 4 * (256 * (data[i] as int) + data[i + 1])
      else
        |groups| == |before| + 4 && SextetNumber(groups) == 0x100_0000 * k + BlockWord(data, i)
  {
    var n := BlockWord(data, i);
    PushedGroups(before, n);
    if i + 1 == |data| {
      assert BlockGroups(data, i) == [n / 0x40000 % 64, n / 0x1000 % 64];
    } else if i + 2 == |data| {
      assert BlockGroups(data, i) == [n / 0x40000 % 64, n / 0x1000 % 64, n / 0x40 % 64];
    } else {
      assert BlockGroups(data, i) == [n / 0x40000 % 64, n / 0x1000 % 64, n / 0x40 % 64, n % 64];
    }
  }

  lemma {:induction false} PushedBytes(data: seq<Byte>, i: nat)
    requires i < |data|
    ensures i + 1 == |data| ==> ByteNumber(data) == 256 * ByteNumber(data[..i]) + data[i]
    ensures i + 2 == |data| ==>
      ByteNumber(data) == 256 * (256 * ByteNumber(data[..i]) + data[i]) + data[i + 1]
    ensures i + 3 <= |data| ==>
      ByteNumber(data[..i + 3]) == 0x100_0000 * ByteNumber(data[..i]) + BlockWord(data, i)
    ensures data[..|data|] == data
  {
    PushedByte(data, i);
    if i + 1 < |data| { PushedByte(data, i + 1); }
    if i + 2 < |data| { PushedByte(data, i + 2); }
    assert data[..|data|] == data;
  }

  lemma BlockCount(i: nat, n: nat)
    requires i % 3 == 0
    ensures n == i + 1 ==> GroupCount(n) == i / 3 * 4 + 2 && PadBits(n) == 4
    ensures n == i + 2 ==> GroupCount(n) == i / 3 * 4 + 3 && PadBits(n) == 2
    ensures n == i + 3 ==> GroupCount(n) == i / 3 * 4 + 4 && PadBits(n) == 0
  {
  }

  lemma {:induction false} WordDigits(n: nat)
    requires n < 0x100_0000
    ensures n == 64 * (n / 0x40) + n % 64
    ensures n / 0x40 == 64 * (n / 0x1000) + n / 0x40 % 64
    ensures n / 0x1000 == 64 * (n / 0x40000) + n / 0x1000 % 64
    ensures n / 0x40000 % 64 == n / 0x40000
  {
    assert n / 0x40 / 64 == n / 0x1000;
    assert n / 0x1000 / 64 == n / 0x40000;
  }

  lemma {:induction false} PushedGroups(s: seq<Sextet>, n: nat)
    requires n < 0x100_0000
    ensures SextetNumber(s + [n / 0x40000 % 64, n / 0x1000 % 64])
         == 0x1000 * SextetNumber(s) + n / 0x1000
    ensures SextetNumber(s + [n / 0x40000 % 64, n / 0x1000 % 64, n / 0x40 % 64])
         == 0x40000 * SextetNumber(s) + n / 0x40
    ensures SextetNumber(s + [n / 0x40000 % 64, n / 0x1000 % 64, n / 0x40 % 64, n % 64])
         == 0x100_0000 * SextetNumber(s) + n
  {
    WordDigits(n);
    PushFour(s, n / 0x40000 % 64, n / 0x1000 % 64, n / 0x40 % 64, n % 64);
  }

  lemma {:induction false} PushFour(s: seq<Sextet>, a: Sextet, b: Sextet, c: Sextet, d: Sextet)
    ensures SextetNumber(s + [a, b]) == 64 * (64 * SextetNumber(s) + a) + b
    ensures SextetNumber(s + [a, b, c]) == 64 * SextetNumber(s + [a, b]) + c
    ensures SextetNumber(s + [a, b, c, d]) == 64 * SextetNumber(s + [a, b, c]) + d
  {
    PushedGroup(s, a);
    PushedGroup(s + [a], b);
    PushedGroup(s + [a, b], c);
    PushedGroup(s + [a, b, c], d);
    assert s + [a] + [b] == s + [a, b];
    assert s + [a, b] + [c] == s + [a, b, c];
    assert s + [a, b, c] + [d] == s + [a, b, c, d];
  }

  lemma {:induction false} PushedGroup(s: seq<Sextet>, d: Sextet)
    ensures SextetNumber(s + [d]) == 64 * SextetNumber(s) + d
  {
    assert (s + [d])[..|s|] == s;
  }

  lemma {:induction false} PushedByte(data: seq<Byte>, i: nat)
    requires i < |data|
    ensures ByteNumber(data[..i + 1]) == 256 * ByteNumber(data[..i]) + data[i]
  {
    assert data[..i + 1][..i] == data[..i];
  }

  // ----- the decoder -----------------------------------------------------------------

  const TWO_31 := 0x8000_0000
  const TWO_32 := 0x1_0000_0000

  /** Two's complement wrap-around of a 32-bit int. */
  function Wrap32(x: int): (w: int)
    ensures -TWO_31 <= w < TWO_31
    ensures x == w + TWO_32 * ((x + TWO_31) / TWO_32)
  {
    (x + TWO_31) % TWO_32 - TWO_31
  }

  /** (word >> shift) & 0xFF on a signed word: an arithmetic shift rounds downwards. */
  function Emitted(word: int, shift: nat): Byte { DropBits(word, shift) % 256 }

  /** An emitted octet depends on the low 14 bits of the accumulator only, so neither the
      sign nor the overflow of the word reaches the output. */
  lemma {:induction false} EmittedLow14(word: int, high: int, shift: nat)
    requires shift == 0 || shift == 2 || shift == 4 || shift == 6
    ensures Emitted(word + 0x4000 * high, shift) == Emitted(word, shift)
  {
    var x := word + 0x4000 * high;
    if shift == 0 {
      DroppedMultiple(word, 64 * high);
    } else if shift == 2 {
      assert x / 4 == word / 4 + 0x1000 * high;
      DroppedMultiple(word / 4, 16 * high);
    } else if shift == 4 {
      assert x / 16 == word / 16 + 0x400 * high;
      DroppedMultiple(word / 16, 4 * high);
    } else {
      assert x / 64 == word / 64 + 0x100 * high;
      DroppedMultiple(word / 64, high);
    }
  }

  lemma DroppedMultiple(x: int, k: int)
    ensures (x + 256 * k) % 256 == x % 256
  {
  }

  lemma {:induction false} OneMoreGroup(s: seq<Sextet>, d: Sextet, p: nat)
    requires p == SpareBits(|s|)
    ensures DecodeSextets(s + [d])
         == DecodeSextets(s) + (if p >= 2 then [Emitted(SextetNumber(s + [d]), p - 2)] else [])
  {
    var n, k := SextetNumber(s), 6 * |s| / 8;
    PushedGroup(s, d);
    SpareBitsStep(|s|);
    DropStep(n, d, p);
    if p >= 2 {
      BytesPush(DropBits(64 * n + d, p - 2), k);
    }
  }

  lemma BytesPush(n: nat, k: nat)
    ensures BytesOf(n, k + 1) == BytesOf(n / 256, k) + [n % 256]
  {
  }

  lemma SpareBitsStep(m: nat)
    ensures SpareBits(m + 1) == (if SpareBits(m) >= 2 then SpareBits(m) - 2 else SpareBits(m) + 6)
    ensures 6 * (m + 1) / 8 == 6 * m / 8 + (if SpareBits(m) >= 2 then 1 else 0)
  {
  }

  lemma {:induction false} DropStep(n: nat, d: Sextet, p: nat)
    requires p == 0 || p == 2 || p == 4 || p == 6
    ensures p == 0 ==> DropBits(64 * n + d, 6) == DropBits(n, 0)
    ensures p >= 2 ==> DropBits(64 * n + d, p - 2) / 256 == DropBits(n, p)
  {
    if p == 4 {
      assert (64 * n + d) / 4 == 16 * n + d / 4;
    } else if p == 6 {
      assert (64 * n + d) / 16 == 4 * n + d / 16;
    }
  }

  /** The decoder: `val` is never masked, so on long inputs it wraps around; `lost` is
      what has been shifted out of it. */
  method DecodeText(input: string) returns (result: seq<Byte>)
    ensures result == Decode(input)
  {
    result := [];
    var val, valb := 0, -8;
    ghost var lost := 0;
    for i := 0 to |input|
      invariant -TWO_31 <= val < TWO_31
      invariant valb == SpareBits(|Sextets(input[..i])|) - 8
      invariant SextetNumber(Sextets(input[..i])) == val + TWO_32 * lost
      invariant result == Decode(input[..i])
    {
      var c := input[i];
      assert input[..i + 1][..i] == input[..i];
      if c != '=' {
        var idx := TableValue(c);
        if idx != -1 {
          ghost var s := Sextets(input[..i]);
          GroupArrives(s, idx, val, lost);
          lost := LostBits(val, lost, idx);
          val := Wrap32(val * 64 + idx);
          valb := valb + 6;
          if valb >= 0 {
            result := result + [Emitted(val, valb)];
            valb := valb - 8;
          }
        }
      }
    }
    assert input[..|input|] == input;
  }

  ghost function LostBits(val: int, lost: int, idx: int): int {
    64 * lost + (val * 64 + idx + TWO_31) / TWO_32
  }

  lemma WrappedPush(val: int, lost: int, idx: int)
    ensures 64 * (val + TWO_32 * lost) + idx
         == Wrap32(val * 64 + idx) + TWO_32 * LostBits(val, lost, idx)
  {
  }

  /** One group through the wrapping word does what it does to the unbounded stream. */
  lemma {:induction false} GroupArrives(s: seq<Sextet>, idx: Sextet, val: int, lost: int)
    requires SextetNumber(s) == val + TWO_32 * lost
    ensures
      var word, p := Wrap32(val * 64 + idx), SpareBits(|s|);
      && SextetNumber(s + [idx]) == word + TWO_32 * LostBits(val, lost, idx)
      && SpareBits(|s + [idx]|) == (if p >= 2 then p - 2 else p + 6)
      && DecodeSextets(s + [idx])
         == DecodeSextets(s) + (if p >= 2 then [Emitted(word, p - 2)] else [])
  {
    var word, p, high := Wrap32(val * 64 + idx), SpareBits(|s|), LostBits(val, lost, idx);
    PushedGroup(s, idx);
    WrappedPush(val, lost, idx);
    SpareBitsStep(|s|);
    OneMoreGroup(s, idx, p);
    assert TWO_32 * high == 0x4000 * (0x4_0000 * high);
    EmittedLow14(word, 0x4_0000 * high, if p >= 2 then p - 2 else 0);
  }
}
