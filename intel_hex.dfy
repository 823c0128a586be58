/**
 * The Intel HEX helpers of the Nyuzi tool scripts (sw/nyuzi_sw/tools/misc/util.py): the
 * record checksum, the conversions between numbers and hexadecimal text, and the builder of
 * an Extended Linear Address record.
 *
 * Python's `int(s, 16)` raises an exception on text that is not a number; here that is the
 * `None` of an `Option`, and it travels up through every operation that parses text.
 */
module IntelHex {
  import opened Wrappers

  predicate IsHexDigit(c: char) {
    '0' <= c <= '9' || 'A' <= c <= 'F' || 'a' <= c <= 'f'
  }

  /** Digits as `format` writes them: 0-9 and upper-case A-F. */
  predicate UpperHex(s: string) {
    forall k :: 0 <= k < |s| ==> '0' <= s[k] <= '9' || 'A' <= s[k] <= 'F'
  }

  function DigitValue(c: char): (v: nat)
    requires IsHexDigit(c)
    ensures v < 16
  {
    if '0' <= c <= '9' then c as int - '0' as int
    else if 'A' <= c <= 'F' then c as int - 'A' as int + 10
    else c as int - 'a' as int + 10
  }

  /** The upper-case digit of a value below 16. */
  function UpperDigit(d: nat): (c: char)
    requires d < 16
    ensures IsHexDigit(c) && DigitValue(c) == d
    ensures '0' <= c <= '9' || 'A' <= c <= 'F'
  {
    if d < 10 then ('0' as int + d) as char else ('A' as int + d - 10) as char
  }

  /** The shortest upper-case hexadecimal text of `n`. */
  function Hex(n: nat): (s: string)
    ensures |s| > 0 && UpperHex(s)
    ensures n < 16 <==> |s| == 1
    ensures 16 <= n < 256 ==> |s| == 2
  {
    if n < 16 then [UpperDigit(n)] else Hex(n / 16) + [UpperDigit(n % 16)]
  }

  /** Reads the hexadecimal digits of `s` from position `i` on, most significant first,
   *  onto the value `acc` read so far; `None` at the first character that is not a digit. */
  function DigitsFrom(s: string, i: nat, acc: nat): (r: Option<nat>)
    requires i <= |s|
    decreases |s| - i
    ensures r.Some? <==> forall k :: i <= k < |s| ==> IsHexDigit(s[k])
  {
    if i == |s| then Some(acc)
    else if !IsHexDigit(s[i]) then None
    else DigitsFrom(s, i + 1, 16 * acc + DigitValue(s[i]))
  }

  /** `s2h`: `int(s, 16)`. An optional sign, then at least one hexadecimal digit in either
   *  case; anything else raises, which is `None` here. */
  function S2h(s: string): (r: Option<int>)
    ensures r.Some? <==> |s| > 0 && var d := if s[0] == '-' || s[0] == '+' then 1 else 0;
      d < |s| && forall k :: d <= k < |s| ==> IsHexDigit(s[k])
    ensures r.Some? && r.value < 0 ==> s[0] == '-'
  {
    if |s| == 0 then None
    else if s[0] == '-' || s[0] == '+' then
      if |s| == 1 then None
      else
        var d := DigitsFrom(s, 1, 0);
        if d.None? then None
        else if s[0] == '-' then Some(-(d.value as int))
        else Some(d.value as int)
    else
      var d := DigitsFrom(s, 0, 0);
      if d.None? then None else Some(d.value as int)
  }

  /** `h2s`: `format(v, '02X')`, upper-case hexadecimal padded to at least two characters,
   *  a minus sign counting towards the width. */
  function H2s(v: int): (s: string)
    ensures 0 <= v < 256 ==> |s| == 2
    ensures 0 <= v ==> UpperHex(s)
    ensures |s| > 0 && (v < 0 <==> s[0] == '-')
  {
    if v < 0 then "-" + Hex(-v)
    else if v < 16 then "0" + Hex(v)
    else Hex(v)
  }

  /** One more digit at the end multiplies the value read so far by 16 and adds the digit. */
  lemma {:induction false} DigitsFromSnoc(s: string, c: char, i: nat, acc: nat)
    requires i <= |s| && IsHexDigit(c)
    ensures var d := DigitsFrom(s, i, acc);
      DigitsFrom(s + [c], i, acc) == if d.None? then None else Some(16 * d.value + DigitValue(c))
    decreases |s| - i
  {
    var t := s + [c];
    if i == |s| {
      assert t[i] == c;
    } else {
      assert t[i] == s[i];
      if IsHexDigit(s[i]) {
        DigitsFromSnoc(s, c, i + 1, 16 * acc + DigitValue(s[i]));
      }
    }
  }

  /** Characters in front of position `i` are never read. */
  lemma {:induction false} DigitsFromSkip(p: string, s: string, i: nat, acc: nat)
    requires i <= |s|
    ensures DigitsFrom(p + s, |p| + i, acc) == DigitsFrom(s, i, acc)
    decreases |s| - i
  {
    if i < |s| {
      assert (p + s)[|p| + i] == s[i];
      if IsHexDigit(s[i]) {
        DigitsFromSkip(p, s, i + 1, 16 * acc + DigitValue(s[i]));
      }
    }
  }

  lemma {:induction false} HexValue(n: nat)
    ensures DigitsFrom(Hex(n), 0, 0) == Some(n)
  {
    var s := Hex(n);
    if n < 16 {
      assert s[0] == UpperDigit(n);
    } else {
      HexValue(n / 16);
      DigitsFromSnoc(Hex(n / 16), UpperDigit(n % 16), 0, 0);
    }
  }

  /** `s2h` undoes `h2s` for every integer. */
  lemma H2sRoundTrip(v: int)
    ensures S2h(H2s(v)) == Some(v)
  {
    if v < 0 {
      NegativeRoundTrip(v);
    } else {
      UnsignedRoundTrip(v);
    }
  }

  lemma NegativeRoundTrip(v: int)
    requires v < 0
    ensures S2h(H2s(v)) == Some(v)
  {
    var s := H2s(v);
    assert s == "-" + Hex(-v) && s[0] == '-' && |s| > 1;
    HexValue(-v);
    DigitsFromSkip("-", Hex(-v), 0, 0);
  }

  lemma UnsignedRoundTrip(v: nat)
    ensures S2h(H2s(v)) == Some(v)
  {
    var s := H2s(v);
    HexValue(v);
    if v < 16 {
      DigitsFromSkip("0", Hex(v), 0, 0);
      assert s[0] == '0';
    } else {
      assert '0' <= s[0] <= '9' || 'A' <= s[0] <= 'F';
    }
  }

  function Add(a: Option<int>, b: Option<int>): (r: Option<int>)
    ensures r.Some? <==> a.Some? && b.Some?
  {
    if a.Some? && b.Some? then Some(a.value + b.value) else None
  }

  /** Sums `parse` over the groups of `s[k..j]`, cut two characters at a time from the right
   *  end `j`; a single character left over at `k` is a group of its own. */
  function Groups(s: string, k: nat, j: nat, parse: string -> Option<int>): Option<int>
    requires k <= j <= |s|
    decreases j - k
  {
    if j == k then Some(0)
    else if j == k + 1 then parse(s[k..j])
    else Add(Groups(s, k, j - 2, parse), parse(s[j - 2..j]))
  }

  /** An even-length right part is summed on its own, because groups are cut from the right. */
  lemma {:induction false} GroupsSplit(s: string, k: nat, m: nat, j: nat, parse: string -> Option<int>)
    requires k <= m <= j <= |s| && (j - m) % 2 == 0
    ensures Groups(s, k, j, parse) == Add(Groups(s, k, m, parse), Groups(s, m, j, parse))
    decreases j - m
  {
    if j > m {
      var last := parse(s[j - 2..j]);
      calc {
        Groups(s, k, j, parse);
        Add(Groups(s, k, j - 2, parse), last);
        { GroupsSplit(s, k, m, j - 2, parse); }
        Add(Add(Groups(s, k, m, parse), Groups(s, m, j - 2, parse)), last);
        Add(Groups(s, k, m, parse), Add(Groups(s, m, j - 2, parse), last));
        Add(Groups(s, k, m, parse), Groups(s, m, j, parse));
      }
    }
  }

  /** A group of one or two characters is read in one piece. */
  lemma OneGroup(s: string, k: nat, j: nat, parse: string -> Option<int>)
    requires k < j <= k + 2 && j <= |s|
    ensures Groups(s, k, j, parse) == parse(s[k..j])
  {
    if j == k + 2 {
      assert Groups(s, k, j, parse) == Add(Some(0), parse(s[k..j]));
    }
  }

  /** The sum `checksum` accumulates over a record: the groups of the text after the record
   *  mark, pairs of digits taken from the right and a single digit left over at the left end
   *  read on its own; `None` if a group does not parse. */
  function RecordSum(frame: string): Option<int> {
    if |frame| == 0 then Some(0) else Groups(frame, 1, |frame|, S2h)
  }

  /** One step of `checksum`: the group `g` at `k` is read in front of the part already
   *  summed; if it does not parse, neither does the whole record. */
  lemma GroupStep(frame: string, k: nat, g: string, sum: int, pairs: nat)
    requires 1 <= k && k + |g| <= |frame| && 1 <= |g| <= 2 && g == frame[k..k + |g|]
    requires |frame| - k - |g| == 2 * pairs && Groups(frame, k + |g|, |frame|, S2h) == Some(sum)
    requires |g| == 2 || k == 1
    ensures Groups(frame, k, |frame|, S2h) == Add(S2h(g), Some(sum))
    ensures S2h(g).None? ==> RecordSum(frame).None?
  {
    GroupsSplit(frame, k, k + |g|, |frame|, S2h);
    OneGroup(frame, k, k + |g|, S2h);
    if k > 1 {
      GroupsSplit(frame, 1, k, |frame|, S2h);
    }
  }

  /** The checksum of a byte sum: `(~(sum % 0x100) & 0xFF) + 1) & 0xFF`, where Python's `~y`
   *  is `-y - 1` and `& 0xFF` keeps the residue modulo 256 for every integer. The result is
   *  the byte that brings the sum to a multiple of 256. */
  function Complement(sum: int): (r: nat)
    ensures r < 256 && (sum + r) % 256 == 0
    ensures r == (256 - sum % 256) % 256
  {
    ((-(sum % 0x100) - 1) % 0x100 + 1) % 0x100
  }

  /** What `checksum(frame)` returns, or `None` where it raises. */
  function ChecksumOf(frame: string): (r: Option<nat>)
    ensures r.Some? <==> RecordSum(frame).Some?
    ensures r.Some? ==> r.value < 256 && (RecordSum(frame).value + r.value) % 256 == 0
  {
    var sum := RecordSum(frame);
    if sum.Some? then Some(Complement(sum.value)) else None
  }

  /** `checksum`: walks the record from its last character back to its second, collecting
   *  digits into `byteString` and adding each complete pair (or the last lone digit). */
  method Checksum(frame: string) returns (r: Option<nat>)
    ensures r == ChecksumOf(frame)
  {
    var byteString := "";
    var sum := 0;
    var length := |frame|;
    var i := 0;
    ghost var start, pairs := length, 0;
    while i < length - 1
      invariant 0 <= i <= length && (length > 0 ==> i <= length - 1)
      invariant |byteString| <= 1 && start == length - i + |byteString| <= length
      invariant |byteString| == 1 ==> i < length - 1
      invariant i < length - 1 ==> length - start == 2 * pairs
      invariant |byteString| == 1 ==> byteString == [frame[length - i]]
      invariant Groups(frame, start, length, S2h) == Some(sum)
    {
      byteString := [frame[length - 1 - i]] + byteString;
      ghost var k := length - 1 - i;
      assert byteString == frame[k..k + |byteString|] by {
        if |byteString| == 1 {
          assert |frame[k..k + 1]| == 1 && frame[k..k + 1][0] == frame[k];
        } else {
          assert |frame[k..k + 2]| == 2 && frame[k..k + 2][0] == frame[k] && frame[k..k + 2][1] == frame[k + 1];
        }
      }
      if |byteString| == 2 || i + 2 >= length {
        var v := S2h(byteString);
        GroupStep(frame, length - 1 - i, byteString, sum, pairs);
        if v.None? {
          r := None;
          return;
        }
        sum := sum + v.value;
        byteString := "";
        start, pairs := length - 1 - i, pairs + 1;
      }
      i := i + 1;
    }
    assert start == if length == 0 then 0 else 1;
    r := Some(Complement(sum));
  }

  /** A value `h2s` writes as two digits and `checksum` adds up. */
  type Byte = b: int | 0 <= b < 256

  /** The text of a sequence of bytes, each written with `enc`. */
  function Encode(bs: seq<Byte>, enc: Byte -> string): string {
    if |bs| == 0 then "" else Encode(bs[..|bs| - 1], enc) + enc(bs[|bs| - 1])
  }

  /** A byte as `h2s` writes it. */
  function ByteText(v: Byte): string {
    H2s(v)
  }

  /** The digits of a record made of `bs`, each byte written with `h2s`. */
  function Bytes(bs: seq<Byte>): string {
    Encode(bs, ByteText)
  }

  function Sum(bs: seq<Byte>): int {
    if |bs| == 0 then 0 else Sum(bs[..|bs| - 1]) + bs[|bs| - 1]
  }

  /** Bytes written two characters each take twice as many characters. */
  lemma {:induction false} EncodeLength(bs: seq<Byte>, enc: Byte -> string)
    requires forall v: Byte :: |enc(v)| == 2
    ensures |Encode(bs, enc)| == 2 * |bs|
  {
    if |bs| > 0 {
      EncodeLength(bs[..|bs| - 1], enc);
    }
  }

  /** Bytes written two characters each, from position `d` of a text on, are summed byte by
   *  byte, by any parser that reads a byte back from its text. */
  lemma {:induction false} GroupsOfBytes(t: string, d: nat, bs: seq<Byte>, enc: Byte -> string, parse: string -> Option<int>)
    requires forall v: Byte :: |enc(v)| == 2 && parse(enc(v)) == Some(v as int)
    requires d + 2 * |bs| <= |t| && t[d..d + 2 * |bs|] == Encode(bs, enc)
    ensures Groups(t, d, d + 2 * |bs|, parse) == Some(Sum(bs))
  {
    if |bs| > 0 {
      var init, last := bs[..|bs| - 1], bs[|bs| - 1];
      var n := 2 * |bs|;
      EncodeLength(init, enc);
      assert t[d..d + n] == Encode(init, enc) + enc(last);
      assert t[d..d + n - 2] == t[d..d + n][..n - 2] == Encode(init, enc);
      assert t[d + n - 2..d + n] == t[d..d + n][n - 2..] == enc(last);
      GroupsOfBytes(t, d, init, enc, parse);
    }
  }

  /** The checksum of a record made of bytes is the byte that brings their sum to a
   *  multiple of 256. */
  lemma ChecksumOfRecord(frame: string, bs: seq<Byte>)
    requires frame == ":" + Bytes(bs)
    ensures ChecksumOf(frame) == Some(Complement(Sum(bs)))
  {
    H2sReadsBytes();
    EncodeLength(bs, ByteText);
    assert frame[1..1 + 2 * |bs|] == Bytes(bs);
    GroupsOfBytes(frame, 1, bs, ByteText, S2h);
  }

  /** `s2h` reads every byte back from its `h2s` text. */
  lemma H2sReadsBytes()
    ensures forall v: Byte :: |ByteText(v)| == 2 && S2h(ByteText(v)) == Some(v as int)
  {
    forall v: Byte
      ensures |ByteText(v)| == 2 && S2h(ByteText(v)) == Some(v as int)
    {
      H2sRoundTrip(v);
    }
  }

  /** `get_extended_linear_address_frame(h, l)`: the record ":02" + "0000" + "04" followed by
   *  the two address bytes, their checksum and a newline; `None` where `checksum` raises. */
  function ElaFrame(h: int, l: int): (r: Option<string>)
    ensures r.Some? ==> |r.value| > 9 && r.value[0] == ':' && r.value[7..9] == "04" && r.value[|r.value| - 1] == '\n'
  {
    var frame := ":02" + "0000" + "04" + H2s(h) + H2s(l);
    var cs := ChecksumOf(frame);
    if cs.Some? then Some(frame + H2s(cs.value) + "\n") else None
  }

  /** A digit value below 10 is written as "0" followed by its decimal digit. */
  lemma SmallByte(v: nat)
    requires v < 10
    ensures H2s(v) == ['0', ('0' as int + v) as char]
  {
  }

  /** One more byte adds its text at the end. */
  lemma EncodeSnoc(bs: seq<Byte>, v: Byte, enc: Byte -> string)
    ensures Encode(bs + [v], enc) == Encode(bs, enc) + enc(v)
  {
    assert (bs + [v])[..|bs|] == bs;
  }

  /** The texts of the three bytes of the fixed part. */
  lemma HeaderTexts()
    ensures ByteText(0x00) == "00" && ByteText(0x02) == "02" && ByteText(0x04) == "04"
  {
    SmallByte(0);
    SmallByte(2);
    SmallByte(4);
  }

  /** The fixed part of the record: byte count 02, address 0000 and record type 04. */
  lemma ElaHeader()
    ensures Bytes([0x02, 0x00, 0x00, 0x04]) == "02000004"
  {
    var b0: seq<Byte> := [];
    var b1 := b0 + [0x02];
    var b2 := b1 + [0x00];
    var b3 := b2 + [0x00];
    var b4 := b3 + [0x04];
    HeaderTexts();
    EncodeSnoc(b0, 0x02, ByteText);
    EncodeSnoc(b1, 0x00, ByteText);
    EncodeSnoc(b2, 0x00, ByteText);
    EncodeSnoc(b3, 0x04, ByteText);
    assert Bytes(b4) == "" + "02" + "00" + "00" + "04";
    assert b4 == [0x02, 0x00, 0x00, 0x04];
  }

  /** The record's digits: the fixed part, then the two address bytes. */
  lemma ElaBytes(h: Byte, l: Byte)
    ensures Bytes([0x02, 0x00, 0x00, 0x04, h, l]) == "02000004" + H2s(h) + H2s(l)
  {
    var b4: seq<Byte> := [0x02, 0x00, 0x00, 0x04];
    var b5 := b4 + [h];
    var b6 := b5 + [l];
    ElaHeader();
    EncodeSnoc(b4, h, ByteText);
    EncodeSnoc(b5, l, ByteText);
    assert b6 == [0x02, 0x00, 0x00, 0x04, h, l];
  }

  /** One more byte adds its value to the sum. */
  lemma SumSnoc(bs: seq<Byte>, v: Byte)
    ensures Sum(bs + [v]) == Sum(bs) + v
  {
    assert (bs + [v])[..|bs|] == bs;
  }

  /** The record's bytes add up to 6 + h + l. */
  lemma ElaSum(h: Byte, l: Byte)
    ensures Sum([0x02, 0x00, 0x00, 0x04, h, l]) == 6 + h + l
  {
    var b0: seq<Byte> := [];
    var b1 := b0 + [0x02];
    var b2 := b1 + [0x00];
    var b3 := b2 + [0x00];
    var b4 := b3 + [0x04];
    var b5 := b4 + [h];
    var b6 := b5 + [l];
    SumSnoc(b0, 0x02);
    SumSnoc(b1, 0x00);
    SumSnoc(b2, 0x00);
    SumSnoc(b3, 0x04);
    SumSnoc(b4, h);
    SumSnoc(b5, l);
    assert b6 == [0x02, 0x00, 0x00, 0x04, h, l];
  }

  /** The first five fields of the record are its bytes behind the record mark. */
  lemma ElaText(h: Byte, l: Byte)
    ensures ":02" + "0000" + "04" + H2s(h) + H2s(l) == ":" + Bytes([0x02, 0x00, 0x00, 0x04, h, l])
  {
    ElaBytes(h, l);
    assert ":02" + "0000" + "04" == ":" + "02000004";
    Reassociate(":", "02000004", H2s(h), H2s(l));
  }

  lemma Reassociate(a: string, b: string, c: string, d: string)
    ensures a + b + c + d == a + (b + c + d)
  {
  }

  /** The checksum of the record's first five fields. */
  lemma ElaChecksum(h: Byte, l: Byte)
    ensures ChecksumOf(":02" + "0000" + "04" + H2s(h) + H2s(l)) == Some(Complement(6 + h + l))
  {
    ElaText(h, l);
    ElaSum(h, l);
    ChecksumOfRecord(":02" + "0000" + "04" + H2s(h) + H2s(l), [0x02, 0x00, 0x00, 0x04, h, l]);
  }

  /** The record `get_extended_linear_address_frame` builds for two address bytes. */
  lemma ElaFrameValue(h: int, l: int)
    requires 0 <= h < 256 && 0 <= l < 256
    ensures ElaFrame(h, l) == Some(":02000004" + H2s(h) + H2s(l) + H2s(Complement(6 + h + l)) + "\n")
  {
    ElaChecksum(h, l);
    assert ":02" + "0000" + "04" == ":02000004";
  }

  /** For two address bytes the record is well formed: 16 characters, the fixed header, the
   *  bytes and a checksum byte that makes the record's bytes 02, 00, 00, 04, h, l, cs sum to
   *  a multiple of 256, as the Extended Linear Address Record of Intel's Hexadecimal Object
   *  File Format Specification (Rev. A) requires. */
  lemma ElaFrameSpec(h: int, l: int)
    requires 0 <= h < 256 && 0 <= l < 256
    ensures ElaFrame(h, l).Some?
    ensures var f := ElaFrame(h, l).value;
      |f| == 16 &&
      exists cs :: 0 <= cs < 256 && f == ":02000004" + H2s(h) + H2s(l) + H2s(cs) + "\n" &&
        (0x02 + 0x00 + 0x00 + 0x04 + h + l + cs) % 256 == 0
  {
    ElaFrameValue(h, l);
    var cs := Complement(6 + h + l);
    assert |H2s(h)| == |H2s(l)| == |H2s(cs)| == 2;
  }

  /** The checksum of the record for address 0x0000: 0x100 - 6. */
  lemma ChecksumOfZeroAddress()
    ensures H2s(Complement(6)) == "FA"
  {
    assert Complement(6) == 0xFA;
    assert Hex(0xFA) == Hex(0xF) + [UpperDigit(0xA)];
  }

  /** The record for address 0x0000, the usual first record of an image. */
  lemma ElaFrameExample()
    ensures ElaFrame(0x00, 0x00) == Some(":020000040000FA\n")
  {
    ElaFrameValue(0, 0);
    SmallByte(0);
    ChecksumOfZeroAddress();
    assert ":02000004" + "00" + "00" + "FA" + "\n" == ":020000040000FA\n";
  }
}
