/**
 * The validators and conversions of `src/bytes.js`: hex strings, the
 * `hexlify` encoder, `decimalToHex`, the TRON address forms (hex `41…` and
 * Base58check `T…`) and `assertValid`.
 *
 * SHA-256 and the Base58 alphabet codec are foreign code: they enter as the
 * functions of a `Codec` value, and only what a statement needs of them is
 * assumed, in its `requires`.
 */
module Bytes {
  import opened Wrappers

  newtype byte = x: int | 0 <= x < 256

  // ------------------------------------------------------------ JavaScript values

  /**
   * The JavaScript values the validators inspect. `Num` is a number with an
   * integer value, `Frac` one with a fractional part; arrays and objects carry
   * the reference that `===` compares.
   */
  datatype Value =
    | Undefined
    | Null
    | Bool(b: bool)
    | Num(n: int)
    | Frac(r: real)
    | NaN
    | Str(s: string)
    | Arr(ref: nat, items: seq<Value>)
    | Obj(ref: nat, keys: seq<string>)

  /** `===`: primitives by value (NaN never), arrays and objects by reference. */
  predicate StrictEquals(a: Value, b: Value)
  {
    match a
    case Arr(r, _) => b.Arr? && b.ref == r
    case Obj(r, _) => b.Obj? && b.ref == r
    case NaN => false
    case _ => a == b
  }

  /**
   * `Number(v)` when it is an integer; None when it is NaN or fractional.
   * `numeric` stands for `Number` on strings (decimal, `0x`, exponent and
   * blank forms).
   */
  function NumberOf(v: Value, numeric: string -> Option<int>): Option<int>
  {
    match v
    case Undefined => None
    case Null => Some(0)
    case Bool(b) => Some(if b then 1 else 0)
    case Num(n) => Some(n)
    case Frac(_) => None
    case NaN => None
    case Str(s) => numeric(s)
    case Arr(_, items) =>
      // an array goes through its string form: "" for [], the element's own for [x], "a,b" otherwise
      if |items| == 0 then numeric("")
      else if |items| == 1 then SoleNumber(items[0], numeric)
      else None
    case Obj(_, _) => None
  }

  /** `Number([x])`, that is `Number(String(x))` with null and undefined printing as "". */
  function SoleNumber(x: Value, numeric: string -> Option<int>): Option<int>
  {
    match x
    case Undefined => numeric("")
    case Null => numeric("")
    case Bool(_) => None
    case Num(n) => Some(n)
    case Frac(_) => None
    case NaN => None
    case Str(s) => numeric(s)
    case Arr(_, items) =>
      if |items| == 0 then numeric("")
      else if |items| == 1 then SoleNumber(items[0], numeric)
      else None
    case Obj(_, _) => None
  }

  /** `isInteger`: not null, and `Number(v)` is an integer. */
  predicate IsInteger(v: Value, numeric: string -> Option<int>)
  {
    v != Null && NumberOf(v, numeric).Some?
  }

  // ------------------------------------------------------------ strings

  predicate StartsWith(s: string, prefix: string)
  {
    |prefix| <= |s| && s[..|prefix|] == prefix
  }

  /**
   * JavaScript's `a < b` on strings, a proper prefix first. Here characters are
   * compared as Unicode scalars, where JavaScript compares UTF-16 code units;
   * the two orders agree whenever the character compared against is below
   * U+D800, as every bound this model compares with is.
   */
  predicate LexLess(a: string, b: string)
  {
    if a == [] then b != []
    else if b == [] then false
    else if a[0] != b[0] then a[0] < b[0]
    else LexLess(a[1..], b[1..])
  }

  /** JavaScript's `.length`: UTF-16 code units, two for a character beyond U+FFFF. */
  function JsLength(s: string): (n: nat)
    ensures |s| <= n <= 2 * |s|
    ensures (forall i :: 0 <= i < |s| ==> s[i] as int < 0x1_0000) ==> n == |s|
  {
    if s == [] then 0 else (if s[0] as int < 0x1_0000 then 1 else 2) + JsLength(s[1..])
  }

  /** `toLowerCase` on the ASCII letters. */
  function LowerChar(c: char): char
  {
    if 'A' <= c <= 'Z' then (c as int + 32) as char else c
  }

  function Lower(s: string): (r: string)
    ensures |r| == |s|
  {
    if s == [] then [] else [LowerChar(s[0])] + Lower(s[1..])
  }

  lemma {:induction false} LowerAppend(a: string, b: string)
    ensures Lower(a + b) == Lower(a) + Lower(b)
  {
    if a != [] {
      assert (a + b)[1..] == a[1..] + b;
      LowerAppend(a[1..], b);
    } else {
      assert a + b == b;
    }
  }

  /** Lowering twice is lowering once, and hex digits stay hex digits. */
  lemma {:induction false} LowerTwice(s: string)
    ensures Lower(Lower(s)) == Lower(s)
    ensures AllHex(s) ==> AllHex(Lower(s))
  {
    if s != [] {
      LowerTwice(s[1..]);
      var l := Lower(s);
      assert l[1..] == Lower(s[1..]);
      assert AllHex(s) ==> AllHex(s[1..]) by {
        if AllHex(s) {
          forall i | 0 <= i < |s[1..]| ensures IsHexDigit(s[1..][i]) {
            assert s[1..][i] == s[i + 1];
          }
        }
      }
    }
  }

  lemma {:induction false} LowerAt(s: string, i: nat)
    requires i < |s|
    ensures Lower(s)[i] == LowerChar(s[i])
  {
    if i > 0 {
      LowerAt(s[1..], i - 1);
    }
  }

  predicate IsHexDigit(c: char)
  {
    '0' <= c <= '9' || 'a' <= c <= 'f' || 'A' <= c <= 'F'
  }

  predicate AllHex(s: string)
  {
    forall i :: 0 <= i < |s| ==> IsHexDigit(s[i])
  }

  // ------------------------------------------------------------ isHexChar, isHex

  /** `isHexChar(c)`: three range tests in JavaScript's string order, so `c` may be any string. */
  function IsHexChar(c: string): int
  {
    if (!LexLess(c, "A") && !LexLess("F", c))
       || (!LexLess(c, "a") && !LexLess("f", c))
       || (!LexLess(c, "0") && !LexLess("9", c))
    then 1 else 0
  }

  /** Where `c` falls against a one-character bound, by its first character and length. */
  lemma {:induction false} LexAgainstChar(c: string, x: char)
    ensures LexLess(c, [x]) <==> c == [] || c[0] < x
    ensures LexLess([x], c) <==> |c| >= 1 && (x < c[0] || (x == c[0] && |c| >= 2))
  {
    if c != [] && c[0] == x {
      assert [x][1..] == [];
    }
  }

  /**
   * `isHexChar` is 1 exactly when the first character opens a hex range and
   * the string does not run past a range's last character: "9", "f" and "F"
   * alone, any string starting with 0–8, a–e or A–E. On one character, that is
   * exactly the hex digits.
   */
  lemma HexCharExactly(c: string)
    ensures IsHexChar(c) == 1 <==>
      |c| >= 1 && (('0' <= c[0] <= '8') || ('a' <= c[0] <= 'e') || ('A' <= c[0] <= 'E')
                   || c == "9" || c == "f" || c == "F")
    ensures |c| == 1 ==> (IsHexChar(c) == 1 <==> IsHexDigit(c[0]))
  {
    LexAgainstChar(c, 'A');
    LexAgainstChar(c, 'F');
    LexAgainstChar(c, 'a');
    LexAgainstChar(c, 'f');
    LexAgainstChar(c, '0');
    LexAgainstChar(c, '9');
    if |c| >= 2 {
      assert c != "9" && c != "f" && c != "F";
    }
  }

  /** `/^(0x|)[a-fA-F0-9]+$/`: an optional `0x`, then one or more hex digits. */
  predicate HexPattern(s: string)
  {
    (StartsWith(s, "0x") && |s| > 2 && AllHex(s[2..])) || (|s| >= 1 && AllHex(s))
  }

  /** JavaScript's white space and line terminators in the Latin-1 range, which `parseInt` skips. */
  predicate IsSpace(c: char)
  {
    c == ' ' || c == '\t' || c == '\n' || c == '\r' || c == '\U{B}' || c == '\U{C}' || c == '\U{A0}'
  }

  function TrimStart(s: string): (r: string)
    ensures |r| <= |s| && (r != [] ==> !IsSpace(r[0]))
  {
    if s != [] && IsSpace(s[0]) then TrimStart(s[1..]) else s
  }

  /** `!isNaN(parseInt(s, 16))`: after blanks, a sign and a `0x`/`0X`, at least one hex digit. */
  predicate ParsesAsHex(s: string)
  {
    var t := TrimStart(s);
    var u := if t != [] && (t[0] == '+' || t[0] == '-') then t[1..] else t;
    var w := if StartsWith(u, "0x") || StartsWith(u, "0X") then u[2..] else u;
    w != [] && IsHexDigit(w[0])
  }

  /** `isHex(v)`. */
  predicate IsHex(v: Value)
  {
    v.Str? && ParsesAsHex(v.s) && HexPattern(v.s)
  }

  /** `isHex` holds exactly for strings of the form `0x` (optional) followed by hex digits: the `parseInt` test adds nothing. */
  lemma HexExactly(v: Value)
    ensures IsHex(v) <==> v.Str? && HexPattern(v.s)
  {
    if v.Str? && HexPattern(v.s) {
      var s := v.s;
      assert TrimStart(s) == s by {
        assert s[0] == '0' || IsHexDigit(s[0]);
      }
      if StartsWith(s, "0x") && |s| > 2 && AllHex(s[2..]) {
        assert s[2..][0] == s[2];
      } else {
        assert IsHexDigit(s[0]);
        assert !StartsWith(s, "0x") && !StartsWith(s, "0X") by {
          assert |s| >= 2 ==> IsHexDigit(s[1]);
        }
      }
    }
  }

  // ------------------------------------------------------------ hex of bytes

  const HexCharacters: string := "0123456789abcdef"

  /** The two lowercase digits of one byte, high nibble first. */
  function ByteHex(v: byte): string
  {
    [HexCharacters[v as int / 16], HexCharacters[v as int % 16]]
  }

  /** `Buffer.from(bytes).toString("hex")`. */
  function HexOf(bytes: seq<byte>): (r: string)
    ensures |r| == 2 * |bytes|
  {
    if bytes == [] then [] else HexOf(bytes[..|bytes| - 1]) + ByteHex(bytes[|bytes| - 1])
  }

  function DigitValue(c: char): nat
    requires IsHexDigit(c)
  {
    if '0' <= c <= '9' then c as int - '0' as int
    else if 'a' <= c <= 'f' then c as int - 'a' as int + 10
    else c as int - 'A' as int + 10
  }

  /** `Buffer.from(s, "hex")`: pairs of hex digits, up to the first pair that is not one; an odd last digit is dropped. */
  function HexDecode(s: string): (r: seq<byte>)
    ensures |r| <= |s| / 2
  {
    if |s| < 2 || !IsHexDigit(s[0]) || !IsHexDigit(s[1]) then []
    else [(DigitValue(s[0]) * 16 + DigitValue(s[1])) as byte] + HexDecode(s[2..])
  }

  lemma {:induction false} HexOfAppend(a: seq<byte>, b: seq<byte>)
    ensures HexOf(a + b) == HexOf(a) + HexOf(b)
    decreases |b|
  {
    if b == [] {
      assert a + b == a;
    } else {
      var b' := b[..|b| - 1];
      assert (a + b)[..|a + b| - 1] == a + b';
      HexOfAppend(a, b');
    }
  }

  /** Each hex character reads back as its position in `HexCharacters`. */
  lemma DigitOfHexCharacter(d: nat)
    requires d < 16
    ensures IsHexDigit(HexCharacters[d]) && DigitValue(HexCharacters[d]) == d
  {
    if d < 10 {
      assert HexCharacters[d] == ('0' as int + d) as char;
    } else {
      assert HexCharacters[d] == ('a' as int + d - 10) as char;
    }
  }

  lemma ByteHexDecode(v: byte, rest: string)
    ensures HexDecode(ByteHex(v) + rest) == [v] + HexDecode(rest)
  {
    var s := ByteHex(v) + rest;
    DigitOfHexCharacter(v as int / 16);
    DigitOfHexCharacter(v as int % 16);
    assert s[0] == HexCharacters[v as int / 16] && s[1] == HexCharacters[v as int % 16];
    assert s[2..] == rest;
  }

  /** The hex of bytes is made of lowercase hex digits only. */
  lemma {:induction false} HexOfDigits(bytes: seq<byte>)
    ensures forall i :: 0 <= i < |HexOf(bytes)| ==> HexOf(bytes)[i] in HexCharacters
    decreases |bytes|
  {
    if bytes != [] {
      var init := bytes[..|bytes| - 1];
      HexOfDigits(init);
      assert HexOf(bytes) == HexOf(init) + ByteHex(bytes[|bytes| - 1]);
    }
  }

  /** The hex of bytes decodes back to the same bytes. */
  lemma {:induction false} HexOfRoundTrip(bytes: seq<byte>)
    ensures HexDecode(HexOf(bytes)) == bytes
    decreases |bytes|
  {
    if bytes != [] {
      var rest := bytes[1..];
      HexOfAppend([bytes[0]], rest);
      assert [bytes[0]] + rest == bytes;
      assert HexOf([bytes[0]]) == ByteHex(bytes[0]) by {
        assert [bytes[0]][..0] == [];
      }
      HexOfRoundTrip(rest);
      ByteHexDecode(bytes[0], HexOf(rest));
    }
  }

  /** `hexlify(bytes)`: `0x`, then two lowercase digits per byte. */
  method Hexlify(bytes: seq<byte>) returns (result: string)
    ensures result == "0x" + HexOf(bytes)
  {
    result := "0x";
    for i := 0 to |bytes|
      invariant result == "0x" + HexOf(bytes[..i])
    {
      var v := bytes[i];
      // `(v & 0xf0) >> 4` and `v & 0x0f` on a byte
      var hi := v as int / 16;
      var lo := v as int % 16;
      assert bytes[..i + 1][..i] == bytes[..i];
      result := result + [HexCharacters[hi]] + [HexCharacters[lo]];
    }
    assert bytes[..|bytes|] == bytes;
  }

  /** `hexlify` is `0x` plus 2n lowercase digits that decode back to the n bytes. */
  lemma HexlifyShape(bytes: seq<byte>)
    ensures var r := "0x" + HexOf(bytes);
      && |r| == 2 + 2 * |bytes|
      && (forall i :: 2 <= i < |r| ==> r[i] in HexCharacters)
      && HexDecode(r[2..]) == bytes
  {
    var r := "0x" + HexOf(bytes);
    HexOfDigits(bytes);
    HexOfRoundTrip(bytes);
    assert r[2..] == HexOf(bytes);
    assert forall i :: 2 <= i < |r| ==> r[i] == HexOf(bytes)[i - 2];
  }

  // ------------------------------------------------------------ decimalToHex

  /** `BigNumber.toString(16)` of a natural number: its lowercase digits, no leading zero. */
  function NatHex(n: nat): (r: string)
    ensures |r| >= 1
    decreases n
  {
    if n < 16 then [HexCharacters[n]] else NatHex(n / 16) + [HexCharacters[n % 16]]
  }

  /** The value of a string of hex digits. */
  function HexValue(s: string): nat
    requires AllHex(s)
  {
    if s == [] then 0 else HexValue(s[..|s| - 1]) * 16 + DigitValue(s[|s| - 1])
  }

  lemma HexValueSnoc(s: string, c: char)
    requires AllHex(s) && IsHexDigit(c)
    ensures AllHex(s + [c]) && HexValue(s + [c]) == HexValue(s) * 16 + DigitValue(c)
  {
    assert (s + [c])[..|s|] == s;
  }

  lemma {:induction false} NatHexValue(n: nat)
    ensures AllHex(NatHex(n)) && HexValue(NatHex(n)) == n
    decreases n
  {
    DigitOfHexCharacter(n % 16);
    if n < 16 {
      assert NatHex(n) == [] + [HexCharacters[n]];
      HexValueSnoc([], HexCharacters[n]);
    } else {
      NatHexValue(n / 16);
      HexValueSnoc(NatHex(n / 16), HexCharacters[n % 16]);
    }
  }

  /** `decimalToHex(n)` for an integer n: `0x` and the digits, `-0x` and those of -n when negative. */
  function DecimalToHex(n: int): (r: string)
    ensures n >= 0 ==> StartsWith(r, "0x") && AllHex(r[2..])
    ensures n < 0 ==> StartsWith(r, "-0x") && AllHex(r[3..])
  {
    NatHexValue(if n < 0 then -n else n);
    if n < 0 then "-0x" + NatHex(-n) else "0x" + NatHex(n)
  }

  /**
   * `toBigNumber(s)` on a string matching `/^(-|)0x/`: the first `0x` is
   * removed and the rest read in base 16; None stands for NaN.
   */
  function HexAmount(s: string): Option<int>
  {
    if StartsWith(s, "0x") then
      (if |s| > 2 && AllHex(s[2..]) then Some(HexValue(s[2..]) as int) else None)
    else if StartsWith(s, "-0x") then
      (if |s| > 3 && AllHex(s[3..]) then Some(-(HexValue(s[3..]) as int)) else None)
    else None
  }

  /** `decimalToHex` reads its own output back: the string denotes the same integer. */
  lemma DecimalToHexRoundTrip(n: int)
    ensures HexAmount(DecimalToHex(n)) == Some(n)
  {
    var r := DecimalToHex(n);
    if n < 0 {
      NatHexValue(-n);
      assert r[3..] == NatHex(-n);
      assert !StartsWith(r, "0x") by {
        assert r[0] == '-';
      }
    } else {
      NatHexValue(n);
      assert r[2..] == NatHex(n);
    }
  }

  // ------------------------------------------------------------ addresses

  /**
   * SHA-256, Base58 encoding, and Base58 decoding (None where `decode`
   * throws, on a character outside the alphabet).
   */
  datatype Codec = Codec(sha256: seq<byte> -> seq<byte>, encode: seq<byte> -> string, decode: string -> Option<seq<byte>>)

  /** `subarray(0, n)`. */
  function Take(b: seq<byte>, n: nat): (r: seq<byte>)
    ensures |r| == if |b| <= n then |b| else n
  {
    if |b| <= n then b else b[..n]
  }

  /** The first four bytes of the double SHA-256. */
  function Checksum(c: Codec, address: seq<byte>): seq<byte>
  {
    Take(c.sha256(c.sha256(address)), 4)
  }

  /** `hex.slice(0, 2)` decides: `0x` becomes `41`, `41` stays, anything else gets `41` in front. */
  function WithTronPrefix(hex: string): string
  {
    var start := if |hex| < 2 then hex else hex[..2];
    if start == "0x" then "41" + hex[2..] else if start != "41" then "41" + hex else hex
  }

  /** The hex after the prefix `hexAddressToB58` settles on. */
  function AddressBody(hex: string): string
  {
    if StartsWith(hex, "0x") || StartsWith(hex, "41") then hex[2..] else hex
  }

  /** `hexAddressToB58(hex)`: the address bytes followed by their checksum, in Base58. */
  function HexAddressToB58(hex: string, c: Codec): string
  {
    var address := HexDecode(WithTronPrefix(hex));
    c.encode(address + Checksum(c, address))
  }

  /**
   * Whatever the input, the bytes encoded start with 0x41, the rest being
   * what the hex after a leading `0x` or `41` decodes to.
   */
  lemma TronPrefixBytes(hex: string)
    ensures WithTronPrefix(hex) == "41" + AddressBody(hex)
    ensures HexDecode(WithTronPrefix(hex)) == [0x41] + HexDecode(AddressBody(hex))
  {
    var w := "41" + AddressBody(hex);
    if |hex| >= 2 {
      assert StartsWith(hex, "0x") <==> hex[..2] == "0x";
      assert StartsWith(hex, "41") <==> hex[..2] == "41";
    } else {
      assert !StartsWith(hex, "0x") && !StartsWith(hex, "41");
    }
    assert w[2..] == AddressBody(hex);
  }

  /** Index i of the bytes, or `undefined` past their end. */
  function At(b: seq<byte>, i: nat): Option<byte>
  {
    if i < |b| then Some(b[i]) else None
  }

  /** The checksum comparison of `b58AddresstoHex`: indices 0 to 4, reading `undefined` past either end. */
  predicate ChecksumMatches(checkSum: seq<byte>, hash: seq<byte>)
  {
    forall i :: 0 <= i < 5 ==> At(checkSum, i) == At(hash, i)
  }

  /** The `for (let i = 0; i < 5; i++)` loop, returning at the first difference. */
  method CompareChecksum(checkSum: seq<byte>, hash: seq<byte>) returns (ok: bool)
    ensures ok == ChecksumMatches(checkSum, hash)
  {
    for i := 0 to 5
      invariant forall j :: 0 <= j < i ==> At(checkSum, j) == At(hash, j)
    {
      if At(checkSum, i) != At(hash, i) {
        return false;
      }
    }
    return true;
  }

  /** Up to five bytes long, the two match exactly when they are equal: the fifth index reads `undefined` on both sides. */
  lemma ChecksumMatchesIff(checkSum: seq<byte>, hash: seq<byte>)
    requires |checkSum| <= 5 && |hash| <= 5
    ensures ChecksumMatches(checkSum, hash) <==> checkSum == hash
  {
    if ChecksumMatches(checkSum, hash) {
      assert |checkSum| == |hash| by {
        var n := if |checkSum| < |hash| then |checkSum| else |hash|;
        assert At(checkSum, n) == At(hash, n);
      }
      forall i | 0 <= i < |hash|
        ensures checkSum[i] == hash[i]
      {
        assert At(checkSum, i) == At(hash, i);
      }
    }
  }

  /**
   * `b58AddresstoHex(address, uncheck)`; None stands for `false`. The decoded
   * bytes lose their last four (the checksum, compared unless `uncheck`); the
   * rest, less its first byte, is written in hex after `41`.
   */
  function B58AddressToHex(v: Value, uncheck: bool, c: Codec): (r: Option<string>)
    ensures (!v.Str? || JsLength(v.s) < 5 || v.s[0] != 'T') ==> r.None?
    ensures v.Str? && c.decode(v.s).None? ==> r.None?
    ensures v.Str? && c.decode(v.s).Some? && |c.decode(v.s).value| < 5 ==> r.None?
  {
    if !v.Str? || JsLength(v.s) < 5 || !StartsWith(v.s, "T") then None
    else match c.decode(v.s)
      case None => None
      case Some(hex) =>
        if |hex| < 5 then None
        else
          var offset := |hex| - 4;
          var address := hex[..offset];
          if !uncheck && !ChecksumMatches(hex[offset..], Checksum(c, address)) then None
          else Some("41" + HexOf(address)[2..])
  }

  /** The payload `b58AddresstoHex` keeps: the decoded bytes less the last four. */
  function Payload(hex: seq<byte>): seq<byte>
    requires |hex| >= 4
  {
    hex[..|hex| - 4]
  }

  /** The hex of bytes less their first two digits is the hex of the bytes after the first. */
  lemma HexOfTail(bytes: seq<byte>)
    requires bytes != []
    ensures HexOf(bytes)[2..] == HexOf(bytes[1..])
  {
    HexOfAppend([bytes[0]], bytes[1..]);
    assert [bytes[0]] + bytes[1..] == bytes;
    assert HexOf([bytes[0]]) == ByteHex(bytes[0]) by {
      assert [bytes[0]][..0] == [];
    }
  }

  /**
   * A successful conversion is `41` and the lowercase hex of the payload
   * after its first byte, and it decodes back to the payload with that first
   * byte made 0x41.
   */
  lemma B58AddressResult(v: Value, uncheck: bool, c: Codec)
    requires B58AddressToHex(v, uncheck, c).Some?
    ensures var hex := c.decode(v.s).value;
      var r := B58AddressToHex(v, uncheck, c).value;
      && |hex| >= 5
      && r == "41" + HexOf(Payload(hex)[1..])
      && |r| == 2 * |Payload(hex)|
      && HexDecode(r) == [0x41] + Payload(hex)[1..]
  {
    var hex := c.decode(v.s).value;
    var address := Payload(hex);
    HexOfTail(address);
    PrefixedHexDecode(address[1..]);
  }

  /** `41` in front of the hex of some bytes decodes to 0x41 in front of those bytes. */
  lemma PrefixedHexDecode(b: seq<byte>)
    ensures HexDecode("41" + HexOf(b)) == [0x41] + b
  {
    var tail := HexOf(b);
    HexOfRoundTrip(b);
    assert ("41" + tail)[2..] == tail;
  }

  /** The hex character of a digit's value is the digit in lower case. */
  lemma LowerDigit(c: char)
    requires IsHexDigit(c)
    ensures DigitValue(c) < 16 && HexCharacters[DigitValue(c)] == LowerChar(c)
  {
    if '0' <= c <= '9' {
      assert c == HexCharacters[c as int - '0' as int];
    } else if 'a' <= c <= 'f' {
      assert c == HexCharacters[c as int - 'a' as int + 10];
    } else {
      assert LowerChar(c) == HexCharacters[c as int - 'A' as int + 10];
    }
  }

  /** Two hex digits make one byte. */
  lemma PairRange(x: char, y: char)
    requires IsHexDigit(x) && IsHexDigit(y)
    ensures DigitValue(x) * 16 + DigitValue(y) < 256
  {
  }

  /** The byte of two hex digits prints back as the two digits in lower case. */
  lemma PairByte(x: char, y: char, b: byte)
    requires IsHexDigit(x) && IsHexDigit(y)
    requires b as int == DigitValue(x) * 16 + DigitValue(y)
    ensures ByteHex(b) == [LowerChar(x), LowerChar(y)]
  {
    LowerDigit(x);
    LowerDigit(y);
    assert b as int / 16 == DigitValue(x) && b as int % 16 == DigitValue(y);
  }

  /** Lowering a string of two or more characters: its first two, then the rest. */
  lemma LowerTwo(s: string)
    requires |s| >= 2
    ensures Lower(s) == [LowerChar(s[0]), LowerChar(s[1])] + Lower(s[2..])
  {
    assert s[1..][1..] == s[2..];
  }

  /** A leading pair of hex digits decodes to one byte, and decoding goes on after it. */
  lemma DecodePair(s: string, b: byte)
    requires |s| >= 2 && IsHexDigit(s[0]) && IsHexDigit(s[1])
    requires b as int == DigitValue(s[0]) * 16 + DigitValue(s[1])
    ensures HexDecode(s) == [b] + HexDecode(s[2..])
  {
  }

  /** The byte of two hex digits prints back as the pair in lower case. */
  lemma PrintPair(x: char, y: char, b: byte)
    requires IsHexDigit(x) && IsHexDigit(y)
    requires b as int == DigitValue(x) * 16 + DigitValue(y)
    ensures HexOf([b]) == [LowerChar(x), LowerChar(y)]
  {
    PairByte(x, y, b);
    assert [b][..0] == [];
  }

  /** An even run of hex digits decodes whole, and its bytes print back as the digits in lower case. */
  lemma {:induction false} HexDecodeAllHex(s: string)
    requires AllHex(s) && |s| % 2 == 0
    ensures |HexDecode(s)| == |s| / 2 && HexOf(HexDecode(s)) == Lower(s)
    decreases |s|
  {
    if s != [] {
      PairRange(s[0], s[1]);
      var b := (DigitValue(s[0]) * 16 + DigitValue(s[1])) as byte;
      var rest := HexDecode(s[2..]);
      DecodePair(s, b);
      HexDecodeAllHex(s[2..]);
      var pair := [LowerChar(s[0]), LowerChar(s[1])];
      PrintPair(s[0], s[1], b);
      calc {
        HexOf(HexDecode(s));
        HexOf([b] + rest);
        { HexOfAppend([b], rest); }
        HexOf([b]) + HexOf(rest);
        pair + Lower(s[2..]);
        { LowerTwo(s); }
        Lower(s);
      }
    }
  }

  /**
   * A well-formed hex address (`41` and 40 hex digits) survives the trip to
   * Base58 and back, in lower case, given a codec whose decoding undoes its
   * encoding there and a digest of at least four bytes (the Base58 form of
   * such bytes starts with `T`).
   */
  lemma HexB58RoundTrip(h: string, c: Codec)
    requires |h| == 42 && StartsWith(h, "41") && AllHex(h)
    requires |c.sha256(c.sha256(HexDecode(h)))| >= 4
    requires var buf := HexDecode(h) + Checksum(c, HexDecode(h));
      c.decode(c.encode(buf)) == Some(buf) && |c.encode(buf)| >= 5 && c.encode(buf)[0] == 'T'
    ensures B58AddressToHex(Str(HexAddressToB58(h, c)), false, c) == Some(Lower(h))
  {
    var bytes := HexDecode(h);
    assert WithTronPrefix(h) == h by {
      assert h[..2] == "41";
    }
    var buf := bytes + Checksum(c, bytes);
    HexDecodeAllHex(h);
    assert Payload(buf) == bytes && buf[|buf| - 4..] == Checksum(c, bytes);
    ChecksumMatchesIff(Checksum(c, bytes), Checksum(c, bytes));
    var s := c.encode(buf);
    assert StartsWith(s, "T");
    B58AddressResult(Str(s), false, c);
    HexOfTail(bytes);
    assert HexOf(bytes[1..]) == Lower(h)[2..];
    assert Lower(h)[..2] == "41";
    assert "41" + Lower(h)[2..] == Lower(h);
  }

  /** `isValidHexAddress`: the Base58 form is a non-empty string. */
  predicate IsValidHexAddress(address: string, c: Codec)
  {
    HexAddressToB58(address, c) != ""
  }

  /** `isValidB58Address`. */
  predicate IsValidB58Address(v: Value, c: Codec)
  {
    B58AddressToHex(v, false, c).Some?
  }

  /** `isValidAddress`: 42 characters are judged as hex, anything else as Base58. */
  predicate IsValidAddress(v: Value, c: Codec)
  {
    v.Str? && (if JsLength(v.s) == 42 then IsValidHexAddress(v.s, c) else IsValidB58Address(v, c))
  }

  /**
   * As written, every string passes `isValidHexAddress`: the bytes encoded
   * always hold at least the 0x41 byte, and Base58 writes no bytes as the
   * empty string only. So `isValidAddress` accepts any string whose `.length` is 42.
   */
  lemma HexAddressAlwaysValid(address: string, c: Codec)
    requires forall b: seq<byte> :: b != [] ==> c.encode(b) != ""
    ensures IsValidHexAddress(address, c)
    ensures JsLength(address) == 42 ==> IsValidAddress(Str(address), c)
  {
    TronPrefixBytes(address);
    var bytes := HexDecode(WithTronPrefix(address));
    assert (bytes + Checksum(c, bytes))[0] == 0x41;
  }

  /** A 42-character string of no hex digit at all, which `isValidAddress` accepts. */
  lemma NotHexAddressAccepted(c: Codec)
    requires forall b: seq<byte> :: b != [] ==> c.encode(b) != ""
    ensures IsValidAddress(Str("41" + seq(40, _ => 'z')), c)
    ensures !ValidHexAddress("41" + seq(40, _ => 'z'))
  {
    var s := "41" + seq(40, _ => 'z');
    HexAddressAlwaysValid(s, c);
    assert !IsHexDigit(s[2]);
  }

  /** The evidently intended hex address: `41` followed by 40 hex digits. */
  predicate ValidHexAddress(s: string)
  {
    |s| == 42 && StartsWith(s, "41") && AllHex(s)
  }

  /** An intended hex address names exactly 21 bytes, the first 0x41, and prints back as itself in lower case. */
  lemma ValidHexAddressBytes(s: string)
    requires ValidHexAddress(s)
    ensures |HexDecode(s)| == 21 && HexDecode(s)[0] == 0x41 && HexOf(HexDecode(s)) == Lower(s)
    ensures HexDecode(WithTronPrefix(s)) == HexDecode(s)
  {
    HexDecodeAllHex(s);
    assert s[..2] == "41";
    assert s[0] == '4' && s[1] == '1';
  }

  // ------------------------------------------------------------ toHexAddress, replaceAddressPrefix

  const NotAFunction := "TypeError: b58AddresstoHex(...).toLowerCase is not a function"

  /** `s.replace(/^0x/, r)` and `s.replace(/^(41)/, r)`. */
  function ReplaceStart(s: string, prefix: string, r: string): string
  {
    if StartsWith(s, prefix) then r + s[|prefix|..] else s
  }

  /**
   * `toHexAddress(address)`: hex is lowercased with a leading `0x` made `41`;
   * anything else goes through `b58AddresstoHex`, whose `false` has no
   * `toLowerCase` and throws.
   */
  function ToHexAddress(v: Value, c: Codec): Result<string>
  {
    if IsHex(v) then Success(ReplaceStart(Lower(v.s), "0x", "41"))
    else match B58AddressToHex(v, false, c)
      case None => Failure(NotAFunction)
      case Some(h) => Success(Lower(h))
  }

  /** Hex input: lower case, and a leading `0x` turned into `41`. */
  lemma ToHexAddressOfHex(s: string, c: Codec)
    requires HexPattern(s)
    ensures ToHexAddress(Str(s), c) == Success(if StartsWith(s, "0x") then "41" + Lower(s[2..]) else Lower(s))
  {
    HexExactly(Str(s));
    if StartsWith(s, "0x") {
      LowerAppend("0x", s[2..]);
      assert s == "0x" + s[2..];
      assert Lower("0x") == "0x";
      assert (Lower("0x") + Lower(s[2..]))[2..] == Lower(s[2..]);
    } else {
      assert |s| >= 2 ==> IsHexDigit(s[1]) && Lower(s)[1] == LowerChar(s[1]);
    }
  }

  /** The value of `replaceAddressPrefix`: one string, or an array of them. */
  datatype Prefixed = Address(s: string) | Addresses(items: seq<Prefixed>)

  /** `replaceAddressPrefix(value)`: arrays element by element; otherwise `toHexAddress` with a leading `41` made `0x`. */
  function ReplaceAddressPrefix(v: Value, c: Codec): Result<Prefixed>
    decreases v, 1
  {
    if v.Arr? then
      match ReplaceEach(v.items, c)
      case Failure(e) => Failure(e)
      case Success(items) => Success(Addresses(items))
    else
      match ToHexAddress(v, c)
      case Failure(e) => Failure(e)
      case Success(h) => Success(Address(ReplaceStart(h, "41", "0x")))
  }

  /** `value.map(replaceAddressPrefix)`: the first element that throws ends it. */
  function ReplaceEach(items: seq<Value>, c: Codec): Result<seq<Prefixed>>
    decreases items, 0
  {
    if items == [] then Success([])
    else match ReplaceAddressPrefix(items[0], c)
      case Failure(e) => Failure(e)
      case Success(p) =>
        match ReplaceEach(items[1..], c)
        case Failure(e) => Failure(e)
        case Success(ps) => Success([p] + ps)
  }

  /** An array maps element by element, in order, to the same number of results. */
  lemma {:induction false} ReplaceEachPointwise(items: seq<Value>, c: Codec)
    requires ReplaceEach(items, c).Success?
    ensures |ReplaceEach(items, c).value| == |items|
    ensures forall i :: 0 <= i < |items| ==>
      ReplaceAddressPrefix(items[i], c) == Success(ReplaceEach(items, c).value[i])
  {
    if items != [] {
      ReplaceEachPointwise(items[1..], c);
      forall i | 1 <= i < |items|
        ensures ReplaceAddressPrefix(items[i], c) == Success(ReplaceEach(items, c).value[i])
      {
        assert items[1..][i - 1] == items[i];
      }
    }
  }

  /**
   * A hex address with `0x` or `41` comes out as `0x` and its lowercase
   * digits, and `toHexAddress` turns that back into the `41` form.
   */
  lemma ReplaceAddressPrefixOfHex(s: string, c: Codec)
    requires HexPattern(s) && (StartsWith(s, "0x") || StartsWith(s, "41")) && |s| > 2
    ensures ReplaceAddressPrefix(Str(s), c) == Success(Address("0x" + Lower(s[2..])))
    ensures ToHexAddress(Str("0x" + Lower(s[2..])), c) == ToHexAddress(Str(s), c)
  {
    ToHexAddressOfHex(s, c);
    var l := Lower(s[2..]);
    if StartsWith(s, "41") {
      LowerAppend("41", s[2..]);
      assert s == "41" + s[2..];
      assert Lower("41") == "41";
    }
    assert ("41" + l)[2..] == l;
    var t := "0x" + l;
    assert t[2..] == l;
    LowerTwice(s[2..]);
    assert HexPattern(t);
    ToHexAddressOfHex(t, c);
  }

  // ------------------------------------------------------------ assertValid

  /** What `assertValid` needs from outside: `Number` on strings, and the address codec. */
  datatype Env = Env(numeric: string -> Option<int>, codec: Codec)

  /**
   * One entry of the `params` array. `names` is None when absent; `msg` is
   * "" when absent or empty (both falsy); the numeric bounds are the ones
   * given as numbers.
   */
  datatype Param = Param(name: string, names: Option<seq<string>>, value: Value, kind: string,
                         gt: Option<int>, lt: Option<int>, gte: Option<int>, lte: Option<int>,
                         optional: bool, msg: string)

  /** The `normalized` object: a missing name reads as `undefined`. */
  type Normalized = map<string, Value>

  function Lookup(normalized: Normalized, key: string): Value
  {
    if key in normalized then normalized[key] else Undefined
  }

  /** `names[i]`, or `undefined` (printed and used as a key as "undefined"). */
  function NameAt(names: Option<seq<string>>, i: nat): string
  {
    if names.Some? && i < |names.value| then names.value[i] else "undefined"
  }

  /** Optional params left out: null or undefined, or `false` where a boolean is not expected. */
  predicate Skipped(p: Param)
  {
    p.optional && (p.value == Undefined || p.value == Null || (p.kind != "boolean" && p.value == Bool(false)))
  }

  /** `validError.invalid`. */
  function Invalid(p: Param): string
  {
    if p.msg != "" then p.msg
    else "Invalid " + p.name + (if p.kind == "address" then " address" else "") + " provided"
  }

  /** `validError.notPositive`: the message ignores `msg`. */
  function NotPositive(p: Param): string
  {
    p.name + " must be a positive integer"
  }

  /** `validError.notEqual`. */
  function NotEqual(p: Param): string
  {
    if p.msg != "" then p.msg
    else NameAt(p.names, 0) + " can not be equal to " + NameAt(p.names, 1)
  }

  /** The four bounds, `gt`/`lt` strict and `gte`/`lte` not. */
  predicate InBounds(x: int, p: Param)
  {
    (p.gt.None? || x > p.gt.value) && (p.lt.None? || x < p.lt.value)
    && (p.gte.None? || x >= p.gte.value) && (p.lte.None? || x <= p.lte.value)
  }

  /**
   * The address rule: a string whose `.length` is 42 must start with `41` and pass
   * `isValidHexAddress`; any other string must convert from Base58, and its hex
   * form is what is recorded.
   */
  function CheckAddress(p: Param, normalized: Normalized, c: Codec): Result<Normalized>
  {
    if !p.value.Str? then Failure(Invalid(p))
    else if JsLength(p.value.s) == 42 then
      (if StartsWith(p.value.s, "41") && IsValidHexAddress(p.value.s, c)
       then Success(normalized[p.name := p.value]) else Failure(Invalid(p)))
    else match B58AddressToHex(p.value, false, c)
      case Some(hex) => Success(normalized[p.name := Str(hex)])
      case None => Failure(Invalid(p))
  }

  /** One turn of the loop: the param's rule, on `normalized` with the param's value recorded. */
  function Check(p: Param, normalized: Normalized, env: Env): Result<Normalized>
  {
    if Skipped(p) then Success(normalized)
    else
      var n := normalized[p.name := p.value];
      var v := p.value;
      if p.kind == "address" then CheckAddress(p, n, env.codec)
      else if p.kind == "integer" then
        (if IsInteger(v, env.numeric) && InBounds(NumberOf(v, env.numeric).value, p) then Success(n) else Failure(Invalid(p)))
      else if p.kind == "positive-integer" then
        (if IsInteger(v, env.numeric) && NumberOf(v, env.numeric).value > 0 then Success(n) else Failure(NotPositive(p)))
      else if p.kind == "tokenId" || p.kind == "not-empty-string" then
        (if v.Str? && |v.s| > 0 then Success(n) else Failure(Invalid(p)))
      else if p.kind == "notEmptyObject" then
        (if v.Obj? && |v.keys| > 0 then Success(n) else Failure(Invalid(p)))
      else if p.kind == "notEqual" then
        (if p.names.Some? && StrictEquals(Lookup(n, NameAt(p.names, 0)), Lookup(n, NameAt(p.names, 1)))
         then Failure(NotEqual(p)) else Success(n))
      else if p.kind == "resource" then
        (if v == Str("BANDWIDTH") || v == Str("ENERGY") then Success(n) else Failure(Invalid(p)))
      else if p.kind == "hex" then
        (if IsHex(v) then Success(n) else Failure(Invalid(p)))
      else if p.kind == "array" then
        (if v.Arr? then Success(n) else Failure(Invalid(p)))
      else if p.kind == "boolean" then
        (if v.Bool? then Success(n) else Failure(Invalid(p)))
      else if p.kind == "string" then
        (if v.Str? && InBounds(JsLength(v.s), p) then Success(n) else Failure(Invalid(p)))
      else Success(n)
  }

  /** The params in order: the `normalized` object after all of them, or the first error thrown. */
  function Validate(params: seq<Param>, env: Env): Result<Normalized>
  {
    if params == [] then Success(map[])
    else match Validate(params[..|params| - 1], env)
      case Failure(e) => Failure(e)
      case Success(n) => Check(params[|params| - 1], n, env)
  }

  /** `assertValid(params)`: `false` when every param passes, the first error otherwise. */
  function Outcome(params: seq<Param>, env: Env): Result<bool>
  {
    match Validate(params, env)
    case Success(_) => Success(false)
    case Failure(e) => Failure(e)
  }

  /** Once a param throws, the params after it are never looked at. */
  lemma {:induction false} ValidateStops(params: seq<Param>, rest: seq<Param>, env: Env)
    requires Validate(params, env).Failure?
    ensures Validate(params + rest, env) == Validate(params, env)
    decreases |rest|
  {
    if rest != [] {
      var front := rest[..|rest| - 1];
      assert (params + rest)[..|params + rest| - 1] == params + front;
      ValidateStops(params, front, env);
    } else {
      assert params + rest == params;
    }
  }

  /** `assertValid(params)`: the loop over the params with the `normalized` object and the `no` flag. */
  method AssertValid(params: seq<Param>, env: Env) returns (r: Result<bool>)
    ensures r == Outcome(params, env)
  {
    var normalized: Normalized := map[];
    var no := false;
    for i := 0 to |params|
      invariant !no
      invariant Validate(params[..i], env) == Success(normalized)
    {
      var p := params[i];
      assert params[..i + 1][..i] == params[..i];
      if Skipped(p) {
        continue;
      }
      var value := p.value;
      normalized := normalized[p.name := value];
      if p.kind == "address" {
        if !value.Str? {
          no := true;
        } else if JsLength(value.s) == 42 {
          if StartsWith(value.s, "41") && IsValidHexAddress(value.s, env.codec) {
            normalized := normalized[p.name := value];
          } else {
            no := true;
          }
        } else {
          var hex := B58AddressToHex(value, false, env.codec);
          if hex.Some? {
            normalized := normalized[p.name := Str(hex.value)];
          } else {
            no := true;
          }
        }
      } else if p.kind == "integer" {
        if !IsInteger(value, env.numeric) || !InBounds(NumberOf(value, env.numeric).value, p) {
          no := true;
        }
      } else if p.kind == "positive-integer" {
        if !IsInteger(value, env.numeric) || NumberOf(value, env.numeric).value <= 0 {
          r := Failure(NotPositive(p));
          ValidateStops(params[..i + 1], params[i + 1..], env);
          assert params[..i + 1] + params[i + 1..] == params;
          return;
        }
      } else if p.kind == "tokenId" || p.kind == "not-empty-string" {
        if !value.Str? || |value.s| == 0 {
          no := true;
        }
      } else if p.kind == "notEmptyObject" {
        if !value.Obj? || |value.keys| == 0 {
          no := true;
        }
      } else if p.kind == "notEqual" {
        if p.names.Some? && StrictEquals(Lookup(normalized, NameAt(p.names, 0)), Lookup(normalized, NameAt(p.names, 1))) {
          r := Failure(NotEqual(p));
          ValidateStops(params[..i + 1], params[i + 1..], env);
          assert params[..i + 1] + params[i + 1..] == params;
          return;
        }
      } else if p.kind == "resource" {
        if value != Str("BANDWIDTH") && value != Str("ENERGY") {
          no := true;
        }
      } else if p.kind == "hex" {
        if !IsHex(value) {
          no := true;
        }
      } else if p.kind == "array" {
        if !value.Arr? {
          no := true;
        }
      } else if p.kind == "boolean" {
        if !value.Bool? {
          no := true;
        }
      } else if p.kind == "string" {
        if !value.Str? || !InBounds(JsLength(value.s), p) {
          no := true;
        }
      }
      if no {
        r := Failure(Invalid(p));
        ValidateStops(params[..i + 1], params[i + 1..], env);
        assert params[..i + 1] + params[i + 1..] == params;
        return;
      }
    }
    assert params[..|params|] == params;
    r := Success(false);
  }

  /** Validation one param further: the new param's check, once the ones before it passed. */
  lemma ValidateSnoc(params: seq<Param>, p: Param, env: Env)
    ensures Validate(params + [p], env)
         == if Validate(params, env).Failure? then Validate(params, env) else Check(p, Validate(params, env).value, env)
  {
    assert (params + [p])[..|params|] == params;
  }

  /** The first param that fails decides: every param before it passed, and its own rule gives the error. */
  lemma {:induction false} FirstFailure(params: seq<Param>, env: Env)
    requires Validate(params, env).Failure?
    ensures exists i :: (0 <= i < |params| && Validate(params[..i], env).Success?
      && Check(params[i], Validate(params[..i], env).value, env) == Validate(params, env))
    decreases |params|
  {
    var k := |params| - 1;
    var front := params[..k];
    ValidateSnoc(front, params[k], env);
    assert front + [params[k]] == params;
    if Validate(front, env).Failure? {
      FirstFailure(front, env);
      var i :| 0 <= i < |front| && Validate(front[..i], env).Success?
        && Check(front[i], Validate(front[..i], env).value, env) == Validate(front, env);
      assert front[..i] == params[..i] && front[i] == params[i];
    } else {
      assert params[..k] == front;
    }
  }

  /** When none fails, each param passed on the `normalized` object its predecessors built. */
  lemma {:induction false} AllPassed(params: seq<Param>, env: Env)
    requires Validate(params, env).Success?
    ensures forall i :: 0 <= i < |params| ==>
      (Validate(params[..i], env).Success? && Check(params[i], Validate(params[..i], env).value, env).Success?)
    decreases |params|
  {
    if params != [] {
      var k := |params| - 1;
      var front := params[..k];
      ValidateSnoc(front, params[k], env);
      assert front + [params[k]] == params;
      AllPassed(front, env);
      forall i | 0 <= i < |params|
        ensures Validate(params[..i], env).Success? && Check(params[i], Validate(params[..i], env).value, env).Success?
      {
        if i < k {
          assert front[..i] == params[..i] && front[i] == params[i];
        }
      }
    }
  }

  /** The params the loop does not skip, in order. */
  function Unskipped(params: seq<Param>): (r: seq<Param>)
    ensures forall p :: p in r <==> p in params && !Skipped(p)
  {
    if params == [] then []
    else Unskipped(params[..|params| - 1]) + (if Skipped(params[|params| - 1]) then [] else [params[|params| - 1]])
  }

  /** Skipped optional params neither fail nor leave a trace: dropping them changes nothing. */
  lemma {:induction false} SkippedParamsIgnored(params: seq<Param>, env: Env)
    ensures Validate(Unskipped(params), env) == Validate(params, env)
    decreases |params|
  {
    if params != [] {
      var front := params[..|params| - 1];
      var p := params[|params| - 1];
      SkippedParamsIgnored(front, env);
      if !Skipped(p) {
        var u := Unskipped(front) + [p];
        assert u[..|u| - 1] == Unskipped(front);
      } else {
        assert Unskipped(front) + [] == Unskipped(front);
      }
    }
  }

  /** A param with no `names`, not optional, no message. */
  function Plain(name: string, value: Value, kind: string, gt: Option<int>, lt: Option<int>,
                 gte: Option<int>, lte: Option<int>): Param
  {
    Param(name, None, value, kind, gt, lt, gte, lte, false, "")
  }

  /** A single param: its check, run on the empty `normalized` object. */
  lemma Single(p: Param, env: Env)
    ensures Validate([p], env) == Check(p, map[], env)
  {
    assert [p][..0] == [];
  }

  /**
   * Integer bounds: `gt` and `lt` exclude the bound, `gte` and `lte` include
   * it; out of range gives "Invalid <name> provided".
   */
  lemma IntegerBounds(name: string, x: int, lo: int, hi: int, env: Env)
    ensures Outcome([Plain(name, Num(x), "integer", Some(lo), None, None, Some(hi))], env)
         == if lo < x <= hi then Success(false) else Failure("Invalid " + name + " provided")
    ensures Outcome([Plain(name, Num(x), "integer", None, Some(hi), Some(lo), None)], env)
         == if lo <= x < hi then Success(false) else Failure("Invalid " + name + " provided")
  {
    Single(Plain(name, Num(x), "integer", Some(lo), None, None, Some(hi)), env);
    Single(Plain(name, Num(x), "integer", None, Some(hi), Some(lo), None), env);
  }

  /** String bounds are the same bounds, on the length in UTF-16 code units. */
  lemma StringBounds(name: string, s: string, lo: int, hi: int, env: Env)
    ensures Outcome([Plain(name, Str(s), "string", Some(lo), None, None, Some(hi))], env)
         == if lo < JsLength(s) <= hi then Success(false) else Failure("Invalid " + name + " provided")
    ensures Outcome([Plain(name, Str(s), "string", None, Some(hi), Some(lo), None)], env)
         == if lo <= JsLength(s) < hi then Success(false) else Failure("Invalid " + name + " provided")
  {
    Single(Plain(name, Str(s), "string", Some(lo), None, None, Some(hi)), env);
    Single(Plain(name, Str(s), "string", None, Some(hi), Some(lo), None), env);
  }

  /** `positive-integer` throws its own message, whatever `msg` says, for zero and below. */
  lemma PositiveInteger(name: string, x: int, msg: string, env: Env)
    ensures Outcome([Param(name, None, Num(x), "positive-integer", None, None, None, None, false, msg)], env)
         == if x > 0 then Success(false) else Failure(name + " must be a positive integer")
  {
    Single(Param(name, None, Num(x), "positive-integer", None, None, None, None, false, msg), env);
  }

  /** `resource` accepts exactly the two strings BANDWIDTH and ENERGY. */
  lemma ResourceKinds(name: string, v: Value, env: Env)
    ensures Outcome([Plain(name, v, "resource", None, None, None, None)], env).Success?
        <==> v == Str("BANDWIDTH") || v == Str("ENERGY")
  {
    Single(Plain(name, v, "resource", None, None, None, None), env);
  }

  /**
   * `notEqual` compares what `normalized` holds under the two names, with
   * `===`, and throws when they are equal; a name nothing recorded reads as
   * `undefined`, so two such names always throw.
   */
  lemma NotEqualCompares(params: seq<Param>, p: Param, a: string, b: string, env: Env)
    requires Validate(params, env).Success?
    requires p.kind == "notEqual" && !p.optional && p.names == Some([a, b]) && p.name != a && p.name != b
    ensures var n := Validate(params, env).value;
      Outcome(params + [p], env)
      == if StrictEquals(Lookup(n, a), Lookup(n, b)) then Failure(NotEqual(p)) else Success(false)
    ensures var n := Validate(params, env).value;
      a !in n && b !in n ==> Outcome(params + [p], env) == Failure(NotEqual(p))
  {
    assert (params + [p])[..|params|] == params;
  }

  /** An address param records its hex form: as given for 42 characters, converted from Base58 otherwise. */
  lemma AddressRecordsHex(p: Param, n: Normalized, env: Env)
    requires p.kind == "address" && !p.optional && p.value.Str?
    ensures JsLength(p.value.s) == 42 && StartsWith(p.value.s, "41") && IsValidHexAddress(p.value.s, env.codec)
      ==> Check(p, n, env) == Success(n[p.name := p.value])
    ensures JsLength(p.value.s) != 42 && B58AddressToHex(p.value, false, env.codec).Some?
      ==> Check(p, n, env) == Success(n[p.name := Str(B58AddressToHex(p.value, false, env.codec).value)])
  {
    var n1 := n[p.name := p.value];
    assert n1[p.name := p.value] == n1;
    if B58AddressToHex(p.value, false, env.codec).Some? {
      var h := B58AddressToHex(p.value, false, env.codec).value;
      assert n1[p.name := Str(h)] == n[p.name := Str(h)];
    }
  }

  /**
   * An address given in lower-case hex and the same address given in Base58
   * are equal once normalized, so `notEqual` on the pair throws. (The Base58
   * conversion writes lower-case hex, so `h` is lower case here.)
   */
  lemma SameAddressBothForms(from: string, to: string, pair: string, h: string, b58: string, env: Env)
    requires from != to && pair != from && pair != to
    requires JsLength(h) == 42 && StartsWith(h, "41") && IsValidHexAddress(h, env.codec)
    requires JsLength(b58) != 42 && B58AddressToHex(Str(b58), false, env.codec) == Some(h)
    ensures Outcome([Plain(from, Str(h), "address", None, None, None, None),
                     Plain(to, Str(b58), "address", None, None, None, None),
                     Param(pair, Some([from, to]), Undefined, "notEqual", None, None, None, None, false, "")], env)
         == Failure(from + " can not be equal to " + to)
  {
    var pf := Plain(from, Str(h), "address", None, None, None, None);
    var pt := Plain(to, Str(b58), "address", None, None, None, None);
    var pp := Param(pair, Some([from, to]), Undefined, "notEqual", None, None, None, None, false, "");
    BothFormsRecorded(pf, pt, h, env);
    NotEqualCompares([pf, pt], pp, from, to, env);
    assert [pf, pt] + [pp] == [pf, pt, pp];
  }

  /** A lower-case hex address and its Base58 form are recorded as the same hex string. */
  lemma BothFormsRecorded(pf: Param, pt: Param, h: string, env: Env)
    requires pf.kind == "address" && !pf.optional && pf.value == Str(h) && pf.name != pt.name
    requires pt.kind == "address" && !pt.optional && pt.value.Str? && JsLength(pt.value.s) != 42
    requires JsLength(h) == 42 && StartsWith(h, "41") && IsValidHexAddress(h, env.codec)
    requires B58AddressToHex(pt.value, false, env.codec) == Some(h)
    ensures Validate([pf, pt], env) == Success(map[pf.name := Str(h), pt.name := Str(h)])
  {
    TwoAddressesRecorded(pf, pt, h, h, env);
  }

  /** A hex address param and a Base58 one: the first as given, the second converted. */
  lemma TwoAddressesRecorded(pf: Param, pt: Param, h: string, converted: string, env: Env)
    requires pf.kind == "address" && !pf.optional && pf.value == Str(h) && pf.name != pt.name
    requires pt.kind == "address" && !pt.optional && pt.value.Str? && JsLength(pt.value.s) != 42
    requires JsLength(h) == 42 && StartsWith(h, "41") && IsValidHexAddress(h, env.codec)
    requires B58AddressToHex(pt.value, false, env.codec) == Some(converted)
    ensures Validate([pf, pt], env) == Success(map[pf.name := Str(h), pt.name := Str(converted)])
  {
    Single(pf, env);
    AddressRecordsHex(pf, map[], env);
    AddressRecordsHex(pt, map[pf.name := Str(h)], env);
    ValidateSnoc([pf], pt, env);
    assert [pf] + [pt] == [pf, pt];
  }

  /**
   * A hex address is recorded as given, case and all: the same address given
   * in hex with an upper-case digit and in Base58 normalizes to two different
   * strings, so `notEqual` on the pair does not throw.
   */
  lemma UpperHexNotEqualToB58(from: string, to: string, pair: string, h: string, b58: string, env: Env)
    requires from != to && pair != from && pair != to
    requires JsLength(h) == 42 && StartsWith(h, "41") && IsValidHexAddress(h, env.codec) && Lower(h) != h
    requires JsLength(b58) != 42 && B58AddressToHex(Str(b58), false, env.codec) == Some(Lower(h))
    ensures Outcome([Plain(from, Str(h), "address", None, None, None, None),
                     Plain(to, Str(b58), "address", None, None, None, None),
                     Param(pair, Some([from, to]), Undefined, "notEqual", None, None, None, None, false, "")], env)
         == Success(false)
  {
    var pf := Plain(from, Str(h), "address", None, None, None, None);
    var pt := Plain(to, Str(b58), "address", None, None, None, None);
    var pp := Param(pair, Some([from, to]), Undefined, "notEqual", None, None, None, None, false, "");
    TwoAddressesRecorded(pf, pt, h, Lower(h), env);
    NotEqualCompares([pf, pt], pp, from, to, env);
    assert [pf, pt] + [pp] == [pf, pt, pp];
  }

  /**
   * `.length` counts UTF-16 code units: one emoji is two of them, so a
   * `lte: 1` string bound rejects it although it is a single character.
   */
  lemma AstralCharIsTwoUnits(name: string, env: Env)
    ensures JsLength("\U{1F600}") == 2
    ensures Outcome([Plain(name, Str("\U{1F600}"), "string", None, None, None, Some(1))], env)
         == Failure("Invalid " + name + " provided")
  {
    Single(Plain(name, Str("\U{1F600}"), "string", None, None, None, Some(1)), env);
  }

  /**
   * As written, any string of `.length` 42 starting with `41` passes as an
   * address, hex digits or not, since `isValidHexAddress` always holds.
   */
  lemma AddressParamAcceptsAny41(name: string, s: string, env: Env)
    requires forall b: seq<byte> :: b != [] ==> env.codec.encode(b) != ""
    requires JsLength(s) == 42 && StartsWith(s, "41")
    ensures Outcome([Plain(name, Str(s), "address", None, None, None, None)], env) == Success(false)
  {
    HexAddressAlwaysValid(s, env.codec);
    Single(Plain(name, Str(s), "address", None, None, None, None), env);
  }
}
