/** vmess:// links: a flat JSON object of strings, printed, coded in base64 without padding, and
    read back. The JSON printer and parser are arguments. */
module LinkCodec {
  import opened Wrappers
  import opened Base64
  import opened Json
  import opened VmNode
  import Decimal

  // ----- base64 around the library's block coder -------------------------------------

  /** EVP_EncodeBlock: padded base64. */
  function BlockEncode(data: seq<Byte>): string { EncodePadded(data) }

  predicate BlockCharacter(c: char) { c == '=' || InStandardAlphabet(c) }

  /** The value of a character of a block; padding counts as zero. */
  function BlockValue(c: char): Sextet
    requires BlockCharacter(c)
  {
    if c == '=' then 0 else TableValue(c)
  }

  function BlockValues(text: string): (s: seq<Sextet>)
    requires forall i :: 0 <= i < |text| ==> BlockCharacter(text[i])
    ensures |s| == |text|
    ensures forall i :: 0 <= i < |text| ==> s[i] == BlockValue(text[i])
  {
    seq(|text|, i requires 0 <= i < |text| => BlockValue(text[i]))
  }

  /** EVP_DecodeBlock: three bytes for every four characters, those of the padding included;
      None for a length or a character it refuses. */
  function BlockDecode(text: string): Option<seq<Byte>> {
    if |text| % 4 != 0 then None
    else if forall i :: 0 <= i < |text| ==> BlockCharacter(text[i])
    then Some(BytesOf(SextetNumber(BlockValues(text)), |text| / 4 * 3))
    else None
  }

  function StripZeros(data: seq<Byte>): seq<Byte> {
    if data != [] && data[|data| - 1] == 0 then StripZeros(data[..|data| - 1]) else data
  }

  function Padded(text: string): (t: string)
    ensures |t| % 4 == 0 && text <= t
  {
    text + if |text| % 4 == 1 then "===" else if |text| % 4 == 2 then "==" else if |text| % 4 == 3 then "=" else ""
  }

  function DecodeBlocks(text: string): seq<Byte> {
    match BlockDecode(Padded(text))
    case None => []
    case Some(data) => StripZeros(data)
  }

  function Standard(text: string): (t: string)
    ensures |t| == |text|
    ensures forall i :: 0 <= i < |text| ==>
      t[i] == if text[i] == '-' then '+' else if text[i] == '_' then '/' else text[i]
  {
    seq(|text|, i requires 0 <= i < |text| =>
      if text[i] == '-' then '+' else if text[i] == '_' then '/' else text[i])
  }

  function StripNuls(text: string): string {
    if text != "" && text[|text| - 1] as int == 0 then StripNuls(text[..|text| - 1]) else text
  }

  function StripMarks(text: string): string {
    if text != "" && text[|text| - 1] == '=' then StripMarks(text[..|text| - 1]) else text
  }

  /** On standard text with padding behind, nothing is stripped of NULs and the padding of '='. */
  lemma {:induction false} Stripped(text: string, marks: string)
    requires forall i :: 0 <= i < |text| ==> InStandardAlphabet(text[i])
    requires forall i :: 0 <= i < |marks| ==> marks[i] == '='
    ensures StripNuls(text + marks) == text + marks
    ensures StripMarks(text + marks) == text
  {
    var all := text + marks;
    if marks != [] {
      Stripped(text, marks[..|marks| - 1]);
      assert all[..|all| - 1] == text + marks[..|marks| - 1];
    } else {
      assert all == text;
      if text != "" { StandardIsPrintable(text[|text| - 1]); }
    }
  }

  lemma StandardIsPrintable(c: char)
    requires InStandardAlphabet(c)
    ensures c as int != 0 && c != '='
  {
  }

  lemma MarksAre(n: nat)
    ensures forall i :: 0 <= i < |Padding(n)| ==> Padding(n)[i] == '='
  {
  }

  lemma {:induction false} EncodeStripped(data: seq<Byte>)
    ensures StripMarks(StripNuls(BlockEncode(data))) == Encode(data)
  {
    var text, marks := Encode(data), Padding(|data|);
    EncodedIsStandard(data);
    MarksAre(|data|);
    Stripped(text, marks);
  }

  /** The block coder fills its buffer, so that there are no NULs to strip. */
  method EncodeText(data: seq<Byte>) returns (output: string)
    ensures output == Encode(data)
  {
    output := StripNuls(BlockEncode(data));
    ghost var block := output;
    while output != "" && output[|output| - 1] == '='
      invariant StripMarks(output) == StripMarks(block)
      decreases |output|
    {
      output := output[..|output| - 1];
    }
    EncodeStripped(data);
  }

  lemma {:induction false} PadStep(text: string)
    ensures |text| % 4 != 0 ==> Padded(text + "=") == Padded(text)
    ensures |text| % 4 == 0 ==> Padded(text) == text
  {
    assert "=" + "==" == "===" && "=" + "=" == "==";
    assert text + "=" + "==" == text + ("=" + "==");
    assert text + "=" + "=" == text + ("=" + "=");
  }

  method Repad(input: string) returns (padded: string)
    ensures padded == Padded(input)
  {
    padded := input;
    while |padded| % 4 != 0
      invariant Padded(padded) == Padded(input)
      decreases (4 - |padded| % 4) % 4
    {
      PadStep(padded);
      padded := padded + "=";
    }
    PadStep(padded);
  }

  method PopZeros(data: seq<Byte>) returns (output: seq<Byte>)
    ensures output == StripZeros(data)
  {
    output := data;
    while output != [] && output[|output| - 1] == 0
      invariant StripZeros(output) == StripZeros(data)
      decreases |output|
    {
      output := output[..|output| - 1];
    }
  }

  method DecodeText(input: string) returns (output: seq<Byte>)
    ensures output == DecodeBlocks(input)
  {
    var padded := Repad(input);
    var block := BlockDecode(padded);
    if block.None? { return []; }
    output := PopZeros(block.value);
  }

  method DecodeUrlSafe(input: string) returns (output: seq<Byte>)
    ensures output == DecodeBlocks(Standard(input))
  {
    var converted := input;
    for i := 0 to |converted|
      invariant |converted| == |input|
      invariant forall j :: 0 <= j < i ==> converted[j] == Standard(input)[j]
      invariant forall j :: i <= j < |input| ==> converted[j] == input[j]
    {
      if converted[i] == '-' {
        converted := converted[i := '+'];
      } else if converted[i] == '_' {
        converted := converted[i := '/'];
      }
    }
    assert converted == Standard(input);
    output := DecodeText(converted);
  }

  lemma {:induction false} ZerosBehind(data: seq<Byte>, k: nat)
    requires k <= 2
    ensures BytesOf(ByteNumber(data) * (if k == 0 then 1 else if k == 1 then 256 else 65536), |data| + k)
         == data + (if k == 0 then [] else if k == 1 then [0] else [0, 0])
  {
    var n := ByteNumber(data);
    BytesOfNumber(data);
    if k >= 1 {
      BytesPush(256 * n, |data|);
      assert BytesOf(256 * n, |data| + 1) == data + [0];
    }
    if k == 2 {
      BytesPush(65536 * n, |data| + 1);
      assert 65536 * n / 256 == 256 * n;
      assert data + [0] + [0] == data + [0, 0];
    }
  }

  /** One zero group for each padding character. */
  function ZeroGroups(n: nat): seq<Sextet> {
    if n % 3 == 1 then [0, 0] else if n % 3 == 2 then [0] else []
  }

  function ZeroBytes(n: nat): seq<Byte> {
    if n % 3 == 1 then [0, 0] else if n % 3 == 2 then [0] else []
  }

  /** Blocks of four characters for n bytes. */
  function Blocks(n: nat): nat { if n % 3 == 0 then n / 3 else n / 3 + 1 }

  lemma {:induction false} PaddedSize(n: nat)
    ensures GroupCount(n) + |Padding(n)| == 4 * Blocks(n)
    ensures n + |ZeroBytes(n)| == 3 * Blocks(n)
  {
    PaddedLength(n);
    assert n == 3 * (n / 3) + n % 3;
  }

  lemma {:induction false} SymbolValues(s: seq<Sextet>, marks: string, zeros: seq<Sextet>)
    requires |marks| == |zeros|
    requires forall i :: 0 <= i < |marks| ==> marks[i] == '=' && zeros[i] == 0
    ensures forall i :: 0 <= i < |Symbols(s) + marks| ==> BlockCharacter((Symbols(s) + marks)[i])
    ensures BlockValues(Symbols(s) + marks) == s + zeros
  {
    var text := Symbols(s) + marks;
    forall i | 0 <= i < |text| ensures BlockCharacter(text[i]) && BlockValue(text[i]) == (s + zeros)[i] {
      if i < |s| { SymbolValue(s[i]); }
    }
  }

  lemma {:induction false} PaddedNumber(data: seq<Byte>)
    ensures BytesOf(SextetNumber(EncodedSextets(data) + ZeroGroups(|data|)), |data + ZeroBytes(|data|)|)
         == data + ZeroBytes(|data|)
  {
    var k, p := |ZeroGroups(|data|)|, PadBits(|data|);
    EncodedNumber(data);
    PaddedLength(|data|);
    PushedZeros(EncodedSextets(data), k);
    Shifted(ByteNumber(data), k, p);
    ZerosBehind(data, k);
  }

  lemma Shifted(n: nat, k: nat, p: nat)
    requires p == 2 * k && k <= 2
    ensures k == 0 ==> AppendZeros(n, p) == n
    ensures k == 1 ==> AppendZeros(n, p) * 64 == n * 256
    ensures k == 2 ==> AppendZeros(n, p) * 4096 == n * 65536
  {
  }

  lemma {:induction false} PaddingFills(data: seq<Byte>)
    ensures Padded(Encode(data)) == EncodePadded(data)
  {
    PaddedLength(|data|);
  }

  lemma {:induction false} BlockDecoded(text: string, blocks: nat, values: seq<Sextet>)
    requires |text| == 4 * blocks
    requires forall i :: 0 <= i < |text| ==> BlockCharacter(text[i])
    requires BlockValues(text) == values
    ensures BlockDecode(text) == Some(BytesOf(SextetNumber(values), 3 * blocks))
  {
    assert |text| / 4 * 3 == 3 * blocks;
  }

  /** The block decoder gives back the data and a zero byte for each padding character. */
  lemma {:induction false} BlockRoundTrip(data: seq<Byte>)
    ensures BlockDecode(EncodePadded(data)) == Some(data + ZeroBytes(|data|))
  {
    var n, s := |data|, EncodedSextets(data);
    PaddedSize(n);
    EncodedNumber(data);
    SymbolValues(s, Padding(n), ZeroGroups(n));
    PaddedNumber(data);
    BlockDecoded(EncodePadded(data), Blocks(n), s + ZeroGroups(n));
  }

  lemma {:induction false} PaddedLength(n: nat)
    ensures n % 3 == 0 ==> GroupCount(n) == n / 3 * 4 && PadBits(n) == 0
    ensures n % 3 == 1 ==> GroupCount(n) == n / 3 * 4 + 2 && PadBits(n) == 4
    ensures n % 3 == 2 ==> GroupCount(n) == n / 3 * 4 + 3 && PadBits(n) == 2
  {
    var q := n / 3;
    assert n == 3 * q || n == 3 * q + 1 || n == 3 * q + 2;
  }

  lemma {:induction false} PushedZeros(s: seq<Sextet>, k: nat)
    requires k <= 2
    ensures SextetNumber(s + if k == 0 then [] else if k == 1 then [0] else [0, 0])
         == SextetNumber(s) * if k == 0 then 1 else if k == 1 then 64 else 4096
  {
    if k == 0 {
      assert s + [] == s;
    } else {
      PushedGroup(s, 0);
      PushedGroup(s + [0], 0);
      assert s + [0] + [0] == s + [0, 0];
    }
  }

  /** Stripping '=', padding again and stripping the zero bytes undo each other exactly for data
      that does not end in a zero byte. */
  lemma {:induction false} TextRoundTrip(data: seq<Byte>)
    ensures DecodeBlocks(Encode(data)) == data <==> data == [] || data[|data| - 1] != 0
    ensures Standard(Encode(data)) == Encode(data)
  {
    PaddingFills(data);
    BlockRoundTrip(data);
    StripZerosAfter(data);
    SextetsOfSymbols(EncodedSextets(data));
  }

  lemma {:induction false} StripZerosAfter(data: seq<Byte>)
    ensures StripZeros(data + [0]) == StripZeros(data)
    ensures StripZeros(data + [0, 0]) == StripZeros(data)
    ensures data + [] == data
    ensures StripZeros(data) == data <==> data == [] || data[|data| - 1] != 0
  {
    var one, two := data + [0], data + [0, 0];
    assert one[..|one| - 1] == data && two[..|two| - 1] == one;
    StripZerosShorter(data);
  }

  lemma {:induction false} StripZerosShorter(data: seq<Byte>)
    ensures |StripZeros(data)| <= |data|
    ensures data != [] && data[|data| - 1] == 0 ==> |StripZeros(data)| < |data|
  {
    if data != [] && data[|data| - 1] == 0 { StripZerosShorter(data[..|data| - 1]); }
  }

  // ----- host lists ------------------------------------------------------------------

  function Join(hosts: seq<string>): string {
    if hosts == [] then ""
    else if |hosts| == 1 then hosts[0]
    else Join(hosts[..|hosts| - 1]) + "," + hosts[|hosts| - 1]
  }

  /** The text between commas; at least one piece. */
  function Split(text: string): (pieces: seq<string>)
    ensures pieces != []
  {
    if text == "" then [""]
    else
      var front, last := Split(text[..|text| - 1]), text[|text| - 1];
      if last == ',' then front + [""]
      else front[..|front| - 1] + [front[|front| - 1] + [last]]
  }

  predicate CommaFree(text: string) { ',' !in text }

  method JoinHosts(hosts: seq<string>) returns (joined: string)
    ensures joined == Join(hosts)
  {
    joined := "";
    for i := 0 to |hosts|
      invariant joined == Join(hosts[..i])
    {
      assert hosts[..i + 1][..i] == hosts[..i];
      if i > 0 { joined := joined + ","; }
      joined := joined + hosts[i];
    }
    assert hosts[..|hosts|] == hosts;
  }

  /** `end` is the next comma from start on, or the end. */
  ghost predicate NextComma(text: string, start: nat, end: nat) {
    && start <= end <= |text| && CommaFree(text[start..end])
    && (end < |text| ==> text[end] == ',')
  }

  /** find(',', start); the length of the text when there is none. */
  method FindComma(text: string, start: nat) returns (end: nat)
    requires start <= |text|
    ensures NextComma(text, start, end)
  {
    end := start;
    while end < |text| && text[end] != ','
      invariant start <= end <= |text| && CommaFree(text[start..end])
    {
      assert text[start..end + 1] == text[start..end] + [text[end]];
      end := end + 1;
    }
  }

  /** The pieces before start, which is the beginning or behind a comma, are split off. */
  ghost predicate SplitOff(text: string, pieces: seq<string>, start: nat) {
    start <= |text| && Split(text[..start]) == pieces + [""]
  }

  method SplitHosts(text: string) returns (pieces: seq<string>)
    ensures pieces == Split(text)
  {
    pieces := [];
    var start := 0;
    SplitAtStart(text);
    var end := FindComma(text, start);
    while end < |text|
      invariant NextComma(text, start, end) && SplitOff(text, pieces, start)
      decreases |text| - start
    {
      SplitAtComma(text, pieces, start, end, text[start..end]);
      pieces := pieces + [text[start..end]];
      start := end + 1;
      end := FindComma(text, start);
    }
    SplitAtEnd(text, pieces, start, end);
    pieces := pieces + [text[start..]];
  }

  lemma SplitAtStart(text: string)
    ensures SplitOff(text, [], 0)
  {
  }

  lemma {:induction false} SplitAtComma(text: string, pieces: seq<string>, start: nat, end: nat, piece: string)
    requires NextComma(text, start, end) && end < |text| && SplitOff(text, pieces, start)
    requires piece == text[start..end]
    ensures SplitOff(text, pieces + [piece], end + 1)
  {
    SplitGrows(text, start, end);
    assert (pieces + [""])[..|pieces|] == pieces;
    assert text[..end + 1][..end] == text[..end];
  }

  lemma {:induction false} SplitAtEnd(text: string, pieces: seq<string>, start: nat, end: nat)
    requires NextComma(text, start, end) && end == |text| && SplitOff(text, pieces, start)
    ensures Split(text) == pieces + [text[start..]]
  {
    assert text[start..|text|] == text[start..] && text[..|text|] == text;
    SplitGrows(text, start, |text|);
    assert (pieces + [""])[..|pieces|] == pieces;
  }

  lemma {:induction false} SplitGrows(text: string, start: nat, end: nat)
    requires start <= end <= |text| && CommaFree(text[start..end])
    requires Split(text[..start])[|Split(text[..start])| - 1] == ""
    ensures
      var before := Split(text[..start]);
      Split(text[..end]) == before[..|before| - 1] + [text[start..end]]
    decreases end
  {
    if end > start {
      assert text[start..end] == text[start..end - 1] + [text[end - 1]];
      SplitGrows(text, start, end - 1);
      assert text[..end][..end - 1] == text[..end - 1];
    } else {
      assert text[start..end] == "";
    }
  }

  lemma {:induction false} PiecesCommaFree(text: string)
    ensures forall i :: 0 <= i < |Split(text)| ==> CommaFree(Split(text)[i])
  {
    if text != "" { PiecesCommaFree(text[..|text| - 1]); }
  }

  /** The pieces with `piece` appended to the last one. */
  function Extended(pieces: seq<string>, piece: string): seq<string>
    requires pieces != []
  {
    pieces[|pieces| - 1 := pieces[|pieces| - 1] + piece]
  }

  lemma {:induction false} ExtendTwice(pieces: seq<string>, p: string, c: char)
    requires pieces != []
    ensures Extended(Extended(pieces, p), [c]) == Extended(pieces, p + [c])
  {
    var last := pieces[|pieces| - 1];
    assert last + p + [c] == last + (p + [c]);
  }

  lemma {:induction false} SplitPush(text: string, c: char)
    requires c != ','
    ensures Split(text + [c]) == Extended(Split(text), [c])
  {
    assert (text + [c])[..|text|] == text;
  }

  lemma {:induction false} SplitAppend(text: string, piece: string)
    requires CommaFree(piece)
    ensures Split(text + piece) == Extended(Split(text), piece)
  {
    if piece == "" {
      NothingAppended(text, Split(text));
    } else {
      var p, c := piece[..|piece| - 1], piece[|piece| - 1];
      SplitAppend(text, p);
      SplitPush(text + p, c);
      ExtendTwice(Split(text), p, c);
      Regrouped(text, p, c, piece);
    }
  }

  lemma {:induction false} NothingAppended(text: string, pieces: seq<string>)
    requires pieces != []
    ensures text + "" == text && Extended(pieces, "") == pieces
  {
    assert pieces[|pieces| - 1] + "" == pieces[|pieces| - 1];
  }

  lemma Regrouped(text: string, p: string, c: char, piece: string)
    requires piece != "" && p == piece[..|piece| - 1] && c == piece[|piece| - 1]
    ensures piece == p + [c] && text + piece == text + p + [c]
  {
  }

  lemma {:induction false} SplitComma(text: string, piece: string)
    requires CommaFree(piece)
    ensures Split(text + "," + piece) == Split(text) + [piece]
  {
    assert (text + ",")[..|text|] == text;
    assert Split(text + ",") == Split(text) + [""];
    SplitAppend(text + ",", piece);
    assert "" + piece == piece;
  }

  lemma {:induction false} JoinPush(front: seq<string>, last: string)
    requires front != []
    ensures Join(front + [last]) == Join(front) + "," + last
  {
    assert (front + [last])[..|front|] == front;
  }

  lemma {:induction false} SplitJoin(hosts: seq<string>)
    requires hosts != [] && forall i :: 0 <= i < |hosts| ==> CommaFree(hosts[i])
    ensures Split(Join(hosts)) == hosts
  {
    if |hosts| == 1 {
      SplitOne(hosts[0]);
    } else {
      var front, last := hosts[..|hosts| - 1], hosts[|hosts| - 1];
      var text := Join(front) + "," + last;
      assert Split(text) == front + [last] by {
        SplitJoin(front);
        SplitComma(Join(front), last);
      }
      assert hosts == front + [last];
      assert Join(hosts) == text by { JoinPush(front, last); }
    }
  }

  lemma {:induction false} SplitOne(host: string)
    requires CommaFree(host)
    ensures Split(host) == [host]
  {
    SplitAppend("", host);
    assert "" + host == host;
  }

  /** What becomes of a host list in a link. */
  function HostsThrough(hosts: seq<string>): seq<string> {
    if Join(hosts) == "" then [] else Split(Join(hosts))
  }

  /** Host lists survive exactly when no host has a comma and the list is not that of one empty
      host. */
  predicate Linkable(hosts: seq<string>) {
    (forall i :: 0 <= i < |hosts| ==> CommaFree(hosts[i])) && hosts != [""]
  }

  lemma {:induction false} HostsSurvive(hosts: seq<string>)
    ensures HostsThrough(hosts) == hosts <==> Linkable(hosts)
  {
    PiecesCommaFree(Join(hosts));
    if hosts != [] && forall i :: 0 <= i < |hosts| ==> CommaFree(hosts[i]) {
      SplitJoin(hosts);
      if Join(hosts) == "" { assert Split("") == [""]; }
    }
  }
}
