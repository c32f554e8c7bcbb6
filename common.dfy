/** Value types shared by the node firmware and the gateway model, and the
    handful of Python string operations the gateway relies on: str.split on
    one character, str.join, str.count, int(s, 16), int(s), "%d" formatting
    and bytearray.fromhex. */
module Common {

  /** An unsigned char (8 bits). */
  type byte = x: int | 0 <= x < 0x100

  /** A signed 32-bit long, as on the AVR node. */
  type long = x: int | -0x8000_0000 <= x < 0x8000_0000

  /** An unsigned 32-bit long. */
  type ulong = x: int | 0 <= x < 0x1_0000_0000

  datatype Option<T> = None | Some(value: T)

  // ---------------------------------------------------------------------
  // Counting, splitting and joining on one character

  /** str.count(c) */
  function Count(s: string, c: char): nat
  {
    if s == [] then 0 else (if s[0] == c then 1 else 0) + Count(s[1..], c)
  }

  lemma {:induction false} CountZero(s: string, c: char)
    ensures Count(s, c) == 0 <==> c !in s
  {
    if s != [] {
      CountZero(s[1..], c);
      assert s == [s[0]] + s[1..];
    }
  }

  lemma {:induction false} CountAppend(s: string, t: string, c: char)
    ensures Count(s + t, c) == Count(s, c) + Count(t, c)
  {
    if s == [] {
      assert s + t == t;
    } else {
      assert (s + t)[1..] == s[1..] + t;
      CountAppend(s[1..], t, c);
    }
  }

  /** str.split(sep): the pieces between the occurrences of sep, always at least one. */
  function Split(s: string, sep: char): (parts: seq<string>)
    ensures |parts| >= 1
    decreases |s|
  {
    if s == [] then [""]
    else if s[0] == sep then [""] + Split(s[1..], sep)
    else
      var rest := Split(s[1..], sep);
      [[s[0]] + rest[0]] + rest[1..]
  }

  /** sep.join(parts) */
  function Join(parts: seq<string>, sep: char): string
  {
    if parts == [] then ""
    else if |parts| == 1 then parts[0]
    else parts[0] + [sep] + Join(parts[1..], sep)
  }

  /** No piece produced by Split contains the separator, and there is one
      piece more than there are separators. */
  lemma {:induction false} SplitPieces(s: string, sep: char)
    ensures forall k :: 0 <= k < |Split(s, sep)| ==> sep !in Split(s, sep)[k]
    ensures |Split(s, sep)| == Count(s, sep) + 1
    decreases |s|
  {
    if s != [] {
      SplitPieces(s[1..], sep);
    }
  }

  /** Joining the pieces of a split gives back the string. */
  lemma {:induction false} JoinSplit(s: string, sep: char)
    ensures Join(Split(s, sep), sep) == s
    decreases |s|
  {
    if s != [] {
      JoinSplit(s[1..], sep);
      var rest := Split(s[1..], sep);
      if s[0] == sep {
        assert s == [sep] + s[1..];
      } else {
        if |rest| == 1 {
          assert Split(s, sep) == [[s[0]] + rest[0]];
        } else {
          assert Split(s, sep)[1..] == rest[1..];
        }
      }
    }
  }

  lemma {:induction false} SplitPrefix(piece: string, sep: char, t: string)
    requires sep !in piece
    ensures Split(piece + [sep] + t, sep) == [piece] + Split(t, sep)
    decreases |piece|
  {
    if piece == [] {
      assert piece + [sep] + t == [sep] + t;
      assert ([sep] + t)[1..] == t;
    } else {
      assert (piece + [sep] + t)[1..] == piece[1..] + [sep] + t;
      SplitPrefix(piece[1..], sep, t);
      assert [piece[0]] + piece[1..] == piece;
    }
  }

  lemma {:induction false} SplitNoSep(piece: string, sep: char)
    requires sep !in piece
    ensures Split(piece, sep) == [piece]
    decreases |piece|
  {
    if piece != [] {
      SplitNoSep(piece[1..], sep);
      assert [piece[0]] + piece[1..] == piece;
    }
  }

  /** Splitting a join of separator-free pieces gives back the pieces. */
  lemma {:induction false} SplitJoin(parts: seq<string>, sep: char)
    requires |parts| >= 1
    requires forall k :: 0 <= k < |parts| ==> sep !in parts[k]
    ensures Split(Join(parts, sep), sep) == parts
  {
    if |parts| == 1 {
      SplitNoSep(parts[0], sep);
    } else {
      SplitJoin(parts[1..], sep);
      SplitPrefix(parts[0], sep, Join(parts[1..], sep));
      assert [parts[0]] + parts[1..] == parts;
    }
  }

  // ---------------------------------------------------------------------
  // Digits

  predicate IsDecDigit(c: char) { '0' <= c <= '9' }

  predicate IsHexDigit(c: char) { '0' <= c <= '9' || 'a' <= c <= 'f' || 'A' <= c <= 'F' }

  function HexValue(c: char): (d: nat)
    requires IsHexDigit(c)
    ensures d < 16
  {
    if '0' <= c <= '9' then c as int - '0' as int
    else if 'a' <= c <= 'f' then c as int - 'a' as int + 10
    else c as int - 'A' as int + 10
  }

  /** The lower-case digit for d, as "%x" and "%d" print it. */
  function DigitChar(d: nat): (c: char)
    requires d < 16
    ensures IsHexDigit(c) && HexValue(c) == d
    ensures d < 10 ==> IsDecDigit(c)
  {
    if d < 10 then ('0' as int + d) as char else ('a' as int + d - 10) as char
  }

  /** The value of a string of digits in the given base, most significant first. */
  function DigitsValue(s: string, base: nat): nat
    requires base == 10 || base == 16
    requires forall i :: 0 <= i < |s| ==> IsHexDigit(s[i])
  {
    if s == [] then 0
    else DigitsValue(s[..|s| - 1], base) * base + HexValue(s[|s| - 1])
  }

  /** A digit of the given base: decimal, or hex in either case. */
  predicate IsDigitOf(c: char, base: nat)
  {
    if base == 10 then IsDecDigit(c) else IsHexDigit(c)
  }

  /** int() of a string that is all digits of the base and not empty. */
  function ParseDigits(s: string, base: nat): Option<nat>
    requires base == 10 || base == 16
  {
    if s != [] && forall i :: 0 <= i < |s| ==> IsDigitOf(s[i], base) then Some(DigitsValue(s, base))
    else None
  }

  /** int(s, base) for digits after an optional sign. */
  function ParseSigned(s: string, base: nat): Option<int>
    requires base == 10 || base == 16
  {
    if s != [] && (s[0] == '-' || s[0] == '+') then
      match ParseDigits(s[1..], base)
      case None => None
      case Some(magnitude) =>
        var v: int := if s[0] == '-' then -(magnitude as int) else magnitude;
        Some(v)
    else ParseDigits(s, base)
  }

  /** int(s, 16) */
  function ParseHex(s: string): Option<int>
  {
    ParseSigned(s, 16)
  }

  /** int(s) */
  function ParseInt(s: string): Option<int>
  {
    ParseSigned(s, 10)
  }

  /** "%d" (base 10) or "%x" (base 16) of a non-negative number. */
  function FormatNat(n: nat, base: nat): (s: string)
    requires base == 10 || base == 16
    ensures s != []
    ensures forall i :: 0 <= i < |s| ==> IsHexDigit(s[i]) && (base == 10 ==> IsDecDigit(s[i]))
  {
    if n < base then [DigitChar(n)] else FormatNat(n / base, base) + [DigitChar(n % base)]
  }

  /** Reading back a formatted number gives the number. */
  lemma {:induction false} DigitsValueFormat(n: nat, base: nat)
    requires base == 10 || base == 16
    ensures DigitsValue(FormatNat(n, base), base) == n
  {
    var s := FormatNat(n, base);
    if n >= base {
      DigitsValueFormat(n / base, base);
      assert s[..|s| - 1] == FormatNat(n / base, base);
    }
  }

  lemma ParseHexFormat(n: nat)
    ensures ParseHex(FormatNat(n, 16)) == Some(n)
  {
    DigitsValueFormat(n, 16);
  }

  /** A leading sign is read as one: "-" before the hex form of n gives -n. */
  lemma ParseHexSigned(n: nat)
    ensures ParseHex("-" + FormatNat(n, 16)) == Some(-(n as int))
    ensures ParseHex("+" + FormatNat(n, 16)) == Some(n)
  {
    DigitsValueFormat(n, 16);
    assert ("-" + FormatNat(n, 16))[1..] == FormatNat(n, 16);
    assert ("+" + FormatNat(n, 16))[1..] == FormatNat(n, 16);
  }

  lemma ParseIntFormat(n: nat)
    ensures ParseInt(FormatNat(n, 10)) == Some(n)
  {
    DigitsValueFormat(n, 10);
  }

  /** "%02x": a byte as exactly two lower-case hex digits. */
  function HexByte(b: byte): (s: string)
    ensures |s| == 2 && IsHexDigit(s[0]) && IsHexDigit(s[1])
    ensures HexValue(s[0]) * 16 + HexValue(s[1]) == b
  {
    [DigitChar(b / 16), DigitChar(b % 16)]
  }

  // ---------------------------------------------------------------------
  // bytearray.fromhex (Python 2): spaces are skipped before each pair of
  // hex digits; anything else, or an odd digit at the end, is an error.

  function FromHex(s: string): Option<seq<byte>>
    decreases |s|
  {
    if s == [] then Some([])
    else if s[0] == ' ' then FromHex(s[1..])
    else if |s| >= 2 && IsHexDigit(s[0]) && IsHexDigit(s[1]) then
      match FromHex(s[2..])
      case None => None
      case Some(rest) => Some([HexValue(s[0]) * 16 + HexValue(s[1])] + rest)
    else None
  }

  /** The tokens "%02x" of each byte. */
  function HexTokens(bs: seq<byte>): (ts: seq<string>)
    ensures |ts| == |bs|
    ensures forall k :: 0 <= k < |ts| ==> ts[k] == HexByte(bs[k])
  {
    if bs == [] then [] else [HexByte(bs[0])] + HexTokens(bs[1..])
  }

  lemma FromHexPair(pair: string, rest: string, bs: seq<byte>)
    requires |pair| == 2 && IsHexDigit(pair[0]) && IsHexDigit(pair[1])
    requires FromHex(rest) == Some(bs)
    ensures FromHex(pair + rest) == Some([HexValue(pair[0]) * 16 + HexValue(pair[1])] + bs)
  {
    var s := pair + rest;
    assert s[0] == pair[0] && s[1] == pair[1];
    assert s[2..] == rest;
  }

  lemma FromHexSpace(rest: string)
    ensures FromHex([' '] + rest) == FromHex(rest)
  {
    assert ([' '] + rest)[1..] == rest;
  }

  /** Converting the space-joined "%02x" tokens of some bytes gives back the bytes. */
  lemma {:induction false} FromHexTokens(bs: seq<byte>)
    ensures FromHex(Join(HexTokens(bs), ' ')) == Some(bs)
  {
    if bs != [] {
      var s := HexByte(bs[0]);
      assert HexValue(s[0]) * 16 + HexValue(s[1]) == bs[0];
      if |bs| == 1 {
        assert Join(HexTokens(bs), ' ') == s + [];
        FromHexPair(s, [], []);
        assert [bs[0]] + [] == bs;
      } else {
        var rest := Join(HexTokens(bs[1..]), ' ');
        FromHexTokens(bs[1..]);
        FromHexSpace(rest);
        FromHexPair(s, [' '] + rest, bs[1..]);
        assert HexTokens(bs) == [s] + HexTokens(bs[1..]);
        assert Join(HexTokens(bs), ' ') == s + ([' '] + rest);
        assert [bs[0]] + bs[1..] == bs;
      }
    }
  }
}
