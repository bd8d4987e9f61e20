/** Base64 with the standard alphabet and `=` padding (section 4 of
    RFC 4648), as the `BASE64_STANDARD` engine encodes and decodes it:
    decoding accepts only canonical input (padding present and only at the
    end, no non-zero trailing bits). Also the two string edits the JWK code
    makes around it: removing every `=` after encoding, and appending `=`
    until the length is a multiple of four before decoding. */
module Base64 {
  import opened Bytes
  import opened Results

  // ------------------------------------------------------------ alphabet

  /** The character of a 6-bit value: A-Z, a-z, 0-9, '+', '/'. */
  function EncodeSextet(v: byte): (c: char)
    requires v < 64
  {
    if v < 26 then ('A' as int + v) as char
    else if v < 52 then ('a' as int + (v - 26)) as char
    else if v < 62 then ('0' as int + (v - 52)) as char
    else if v == 62 then '+'
    else '/'
  }

  /** The 6-bit value of an alphabet character; None for anything else,
      the padding character included. */
  function DecodeChar(c: char): (r: Option<byte>)
    ensures r.Some? ==> r.value < 64
  {
    if 'A' <= c <= 'Z' then Some(c as int - 'A' as int)
    else if 'a' <= c <= 'z' then Some(c as int - 'a' as int + 26)
    else if '0' <= c <= '9' then Some(c as int - '0' as int + 52)
    else if c == '+' then Some(62)
    else if c == '/' then Some(63)
    else None
  }

  lemma DecodeEncodeSextet(v: byte)
    requires v < 64
    ensures DecodeChar(EncodeSextet(v)) == Some(v)
    ensures EncodeSextet(v) != '='
  {
  }

  lemma EncodeDecodeChar(c: char)
    requires DecodeChar(c).Some?
    ensures EncodeSextet(DecodeChar(c).value) == c
  {
  }

  // ------------------------------------------------------------ encoding

  /** Four characters for one to three bytes; a group of one byte ends in
      "==", a group of two in "=". Missing bytes count as zero. */
  function EncodeGroup(b: Bytes): (s: string)
    requires 1 <= |b| <= 3
    ensures |s| == 4
  {
    var b0 := b[0];
    var b1: byte := if |b| > 1 then b[1] else 0;
    var b2: byte := if |b| > 2 then b[2] else 0;
    [ EncodeSextet(Split0(b0)),
      EncodeSextet(Split1(b0, b1)),
      if |b| > 1 then EncodeSextet(Split2(b1, b2)) else '=',
      if |b| > 2 then EncodeSextet(Split3(b2)) else '=' ]
  }

  // The four sextets of three bytes, and the three bytes of four sextets:
  // the shifts and masks of the engine written as division and remainder by
  // powers of two (x >> k is x / 2^k, x & (2^k - 1) is x % 2^k, and the ORs
  // join bit ranges that do not overlap).
  function Split0(b0: byte): (v: byte) ensures v < 64 { b0 / 4 }
  function Split1(b0: byte, b1: byte): (v: byte) ensures v < 64 { (b0 % 4) * 16 + b1 / 16 }
  function Split2(b1: byte, b2: byte): (v: byte) ensures v < 64 { (b1 % 16) * 4 + b2 / 64 }
  function Split3(b2: byte): (v: byte) ensures v < 64 { b2 % 64 }
  function Join0(v0: byte, v1: byte): byte requires v0 < 64 && v1 < 64 { v0 * 4 + v1 / 16 }
  function Join1(v1: byte, v2: byte): byte requires v2 < 64 { (v1 % 16) * 16 + v2 / 4 }
  function Join2(v2: byte, v3: byte): byte requires v3 < 64 { (v2 % 4) * 64 + v3 }

  /** Splitting three bytes into four sextets and joining them again is the
      identity. */
  lemma SplitJoin(b0: byte, b1: byte, b2: byte)
    ensures Join0(Split0(b0), Split1(b0, b1)) == b0
    ensures Join1(Split1(b0, b1), Split2(b1, b2)) == b1
    ensures Join2(Split2(b1, b2), Split3(b2)) == b2
  {
  }

  /** The same for a group of one byte: the missing byte leaves the last
      four bits of the second sextet zero. */
  lemma SplitJoin1(b0: byte)
    ensures Join0(Split0(b0), Split1(b0, 0)) == b0
    ensures Split1(b0, 0) % 16 == 0
  {
  }

  /** The same for a group of two bytes: the missing byte leaves the last
      two bits of the third sextet zero. */
  lemma SplitJoin2(b0: byte, b1: byte)
    ensures Join0(Split0(b0), Split1(b0, b1)) == b0
    ensures Join1(Split1(b0, b1), Split2(b1, 0)) == b1
    ensures Split2(b1, 0) % 4 == 0
  {
  }

  /** Joining four sextets and splitting them again is the identity. */
  lemma JoinSplit(v0: byte, v1: byte, v2: byte, v3: byte)
    requires v0 < 64 && v1 < 64 && v2 < 64 && v3 < 64
    ensures Split0(Join0(v0, v1)) == v0
    ensures Split1(Join0(v0, v1), Join1(v1, v2)) == v1
    ensures Split2(Join1(v1, v2), Join2(v2, v3)) == v2
    ensures Split3(Join2(v2, v3)) == v3
  {
  }

  /** The same for two sextets whose trailing four bits are zero. */
  lemma JoinSplit1(v0: byte, v1: byte)
    requires v0 < 64 && v1 < 64 && v1 % 16 == 0
    ensures Split0(Join0(v0, v1)) == v0
    ensures Split1(Join0(v0, v1), 0) == v1
  {
  }

  /** The same for three sextets whose trailing two bits are zero. */
  lemma JoinSplit2(v0: byte, v1: byte, v2: byte)
    requires v0 < 64 && v1 < 64 && v2 < 64 && v2 % 4 == 0
    ensures Split0(Join0(v0, v1)) == v0
    ensures Split1(Join0(v0, v1), Join1(v1, v2)) == v1
    ensures Split2(Join1(v1, v2), 0) == v2
  {
  }

  function Encode(b: Bytes): (s: string)
    ensures |s| % 4 == 0
    ensures |s| == 0 <==> |b| == 0
    decreases |b|
  {
    if |b| == 0 then ""
    else if |b| <= 3 then EncodeGroup(b)
    else EncodeGroup(b[..3]) + Encode(b[3..])
  }

  /** How many `=` end the encoding of n bytes. */
  function PadCount(n: nat): (k: nat)
    ensures k < 3
  {
    if n % 3 == 1 then 2 else if n % 3 == 2 then 1 else 0
  }

  /** An encoding is alphabet characters followed by PadCount(|b|) `=`. */
  lemma {:induction false} EncodeShape(b: Bytes)
    ensures PadCount(|b|) <= |Encode(b)|
    ensures forall i | 0 <= i < |Encode(b)| - PadCount(|b|) :: DecodeChar(Encode(b)[i]).Some?
    ensures forall i | |Encode(b)| - PadCount(|b|) <= i < |Encode(b)| :: Encode(b)[i] == '='
    decreases |b|
  {
    if 0 < |b| <= 3 {
      EncodeGroupShape(b);
    } else if |b| > 3 {
      var g, r := EncodeGroup(b[..3]), Encode(b[3..]);
      var k := PadCount(|b|);
      PadCountStep(|b|);
      assert Encode(b) == g + r;
      EncodeGroupShape(b[..3]);
      EncodeShape(b[3..]);
      forall i | 0 <= i < |g + r| - k
        ensures DecodeChar((g + r)[i]).Some?
      {
        if i >= 4 {
          assert (g + r)[i] == r[i - 4];
        }
      }
      forall i | |g + r| - k <= i < |g + r|
        ensures (g + r)[i] == '='
      {
        assert (g + r)[i] == r[i - 4];
      }
    }
  }

  lemma PadCountStep(n: nat)
    requires n >= 3
    ensures PadCount(n - 3) == PadCount(n)
  {
    assert (n - 3) % 3 == n % 3;
  }

  lemma EncodeGroupShape(b: Bytes)
    requires 1 <= |b| <= 3
    ensures forall i | 0 <= i < 4 - PadCount(|b|) :: DecodeChar(EncodeGroup(b)[i]).Some?
    ensures forall i | 4 - PadCount(|b|) <= i < 4 :: EncodeGroup(b)[i] == '='
  {
    var b1: byte := if |b| > 1 then b[1] else 0;
    var b2: byte := if |b| > 2 then b[2] else 0;
    DecodeEncodeSextet(Split0(b[0]));
    DecodeEncodeSextet(Split1(b[0], b1));
    DecodeEncodeSextet(Split2(b1, b2));
    DecodeEncodeSextet(Split3(b2));
  }

  // ------------------------------------------------------------ decoding

  /** One group of four characters; padding is accepted only in the last
      group, and the bits it leaves unused must be zero. */
  function DecodeGroup(g: string, last: bool): (r: Option<Bytes>)
    requires |g| == 4
    ensures r.Some? ==> 1 <= |r.value| <= 3
    ensures r.Some? && !last ==> |r.value| == 3
  {
    var d0, d1 := DecodeChar(g[0]), DecodeChar(g[1]);
    if d0.None? || d1.None? then None
    else
      var v0, v1 := d0.value, d1.value;
      if last && g[2] == '=' && g[3] == '=' then
        if v1 % 16 == 0 then Some([Join0(v0, v1)]) else None
      else
        var d2 := DecodeChar(g[2]);
        if d2.None? then None
        else
          var v2 := d2.value;
          if last && g[3] == '=' then
            if v2 % 4 == 0 then Some([Join0(v0, v1), Join1(v1, v2)]) else None
          else
            var d3 := DecodeChar(g[3]);
            if d3.None? then None
            else Some([Join0(v0, v1), Join1(v1, v2), Join2(v2, d3.value)])
  }

  function DecodeGroups(s: string): Option<Bytes>
    requires |s| % 4 == 0
    decreases |s|
  {
    if |s| == 0 then Some([])
    else
      match DecodeGroup(s[..4], |s| == 4)
      case None => None
      case Some(g) =>
        match DecodeGroups(s[4..])
        case None => None
        case Some(rest) => Some(g + rest)
  }

  /** Decoding fails on a length that is not a multiple of four. */
  function Decode(s: string): (r: Option<Bytes>)
    ensures |s| % 4 != 0 ==> r.None?
  {
    if |s| % 4 != 0 then None else DecodeGroups(s)
  }

  // ------------------------------------------------------------ round trips

  lemma DecodeEncodeGroup(b: Bytes, last: bool)
    requires 1 <= |b| <= 3
    requires |b| < 3 ==> last
    ensures DecodeGroup(EncodeGroup(b), last) == Some(b)
  {
    if |b| == 1 {
      assert b == [b[0]];
      DecodeEncodeGroup1(b[0]);
    } else if |b| == 2 {
      assert b == [b[0], b[1]];
      DecodeEncodeGroup2(b[0], b[1]);
    } else {
      assert b == [b[0], b[1], b[2]];
      DecodeEncodeGroup3(b[0], b[1], b[2], last);
    }
  }

  lemma DecodeEncodeGroup1(b0: byte)
    ensures DecodeGroup(EncodeGroup([b0]), true) == Some([b0])
  {
    var v0, v1 := Split0(b0), Split1(b0, 0);
    var g := EncodeGroup([b0]);
    EncodeGroup1(b0);
    SplitJoin1(b0);
    DecodeEncodeSextet(v0);
    DecodeEncodeSextet(v1);
    assert DecodeChar(g[0]) == Some(v0) && DecodeChar(g[1]) == Some(v1);
    assert g[2] == '=' && g[3] == '=';
    assert v1 % 16 == 0 && Join0(v0, v1) == b0;
  }

  lemma DecodeEncodeGroup2(b0: byte, b1: byte)
    ensures DecodeGroup(EncodeGroup([b0, b1]), true) == Some([b0, b1])
  {
    EncodeGroup2(b0, b1);
    SplitJoin2(b0, b1);
    DecodeEncodeSextet(Split0(b0));
    DecodeEncodeSextet(Split1(b0, b1));
    DecodeEncodeSextet(Split2(b1, 0));
  }

  lemma DecodeEncodeGroup3(b0: byte, b1: byte, b2: byte, last: bool)
    ensures DecodeGroup(EncodeGroup([b0, b1, b2]), last) == Some([b0, b1, b2])
  {
    EncodeGroup3(b0, b1, b2);
    SplitJoin(b0, b1, b2);
    DecodeEncodeSextet(Split0(b0));
    DecodeEncodeSextet(Split1(b0, b1));
    DecodeEncodeSextet(Split2(b1, b2));
    DecodeEncodeSextet(Split3(b2));
  }

  // The groups of one, two and three bytes, character by character.
  lemma EncodeGroup1(b0: byte)
    ensures EncodeGroup([b0]) == [EncodeSextet(Split0(b0)), EncodeSextet(Split1(b0, 0)), '=', '=']
  {
  }

  lemma EncodeGroup2(b0: byte, b1: byte)
    ensures EncodeGroup([b0, b1]) == [EncodeSextet(Split0(b0)), EncodeSextet(Split1(b0, b1)), EncodeSextet(Split2(b1, 0)), '=']
  {
  }

  lemma EncodeGroup3(b0: byte, b1: byte, b2: byte)
    ensures EncodeGroup([b0, b1, b2])
         == [EncodeSextet(Split0(b0)), EncodeSextet(Split1(b0, b1)), EncodeSextet(Split2(b1, b2)), EncodeSextet(Split3(b2))]
  {
  }

  /** Decoding recovers the encoded bytes. */
  lemma {:induction false} DecodeEncode(b: Bytes)
    ensures Decode(Encode(b)) == Some(b)
    decreases |b|
  {
    if 0 < |b| <= 3 {
      var s := Encode(b);
      DecodeEncodeGroup(b, true);
      assert s == EncodeGroup(b);
      assert s[..4] == s && s[4..] == [];
      assert DecodeGroup(s[..4], |s| == 4) == Some(b);
      assert DecodeGroups(s[4..]) == Some([]);
      assert b + [] == b;
    } else if |b| > 3 {
      var s := Encode(b);
      assert s[..4] == EncodeGroup(b[..3]) && s[4..] == Encode(b[3..]);
      DecodeEncodeGroup(b[..3], |s| == 4);
      DecodeEncode(b[3..]);
      assert b == b[..3] + b[3..];
    }
  }

  lemma EncodeDecodeGroup(g: string, last: bool)
    requires |g| == 4 && DecodeGroup(g, last).Some?
    ensures EncodeGroup(DecodeGroup(g, last).value) == g
  {
    var x := DecodeGroup(g, last).value;
    var v0, v1 := DecodeChar(g[0]).value, DecodeChar(g[1]).value;
    EncodeDecodeChar(g[0]);
    EncodeDecodeChar(g[1]);
    assert g == [g[0], g[1], g[2], g[3]];
    if last && g[2] == '=' && g[3] == '=' {
      assert x == [Join0(v0, v1)];
      JoinSplit1(v0, v1);
      EncodeGroup1(Join0(v0, v1));
    } else {
      var v2 := DecodeChar(g[2]).value;
      EncodeDecodeChar(g[2]);
      if last && g[3] == '=' {
        assert x == [Join0(v0, v1), Join1(v1, v2)];
        JoinSplit2(v0, v1, v2);
        EncodeGroup2(Join0(v0, v1), Join1(v1, v2));
      } else {
        var v3 := DecodeChar(g[3]).value;
        EncodeDecodeChar(g[3]);
        assert x == [Join0(v0, v1), Join1(v1, v2), Join2(v2, v3)];
        JoinSplit(v0, v1, v2, v3);
        EncodeGroup3(Join0(v0, v1), Join1(v1, v2), Join2(v2, v3));
      }
    }
  }

  /** Decoding is canonical: the only string that decodes to `b` is the
      encoding of `b`. */
  lemma {:induction false} EncodeDecode(s: string, b: Bytes)
    requires Decode(s) == Some(b)
    ensures Encode(b) == s
    decreases |s|
  {
    if |s| == 4 {
      DecodeGroupsLast(s);
      EncodeDecodeGroup(s, true);
    } else if |s| > 0 {
      var g, rest := DecodeGroupsCons(s);
      EncodeDecode(s[4..], rest);
      EncodeDecodeGroup(s[..4], false);
      EncodeCons(g, rest);
      assert s == s[..4] + s[4..];
    }
  }

  /** A string of one group decodes as that last group. */
  lemma DecodeGroupsLast(s: string)
    requires |s| == 4 && DecodeGroups(s).Some?
    ensures DecodeGroup(s, true).Some? && DecodeGroups(s).value == DecodeGroup(s, true).value
  {
    assert s[..4] == s;
    assert DecodeGroups(s[4..]) == Some([]);
  }

  /** A string of more than one group decodes as its first (three-byte)
      group followed by the decoding of the rest. */
  lemma DecodeGroupsCons(s: string) returns (g: Bytes, rest: Bytes)
    requires |s| % 4 == 0 && |s| > 4 && Decode(s).Some?
    ensures DecodeGroup(s[..4], false) == Some(g) && |g| == 3
    ensures Decode(s[4..]) == Some(rest) && |rest| > 0
    ensures Decode(s).value == g + rest
  {
    g := DecodeGroup(s[..4], false).value;
    rest := DecodeGroups(s[4..]).value;
  }

  lemma EncodeCons(g: Bytes, rest: Bytes)
    requires |g| == 3 && |rest| > 0
    ensures Encode(g + rest) == EncodeGroup(g) + Encode(rest)
  {
    var b := g + rest;
    assert b[..3] == g && b[3..] == rest;
  }

  // ------------------------------------------------------------ JWK padding

  /** The string with every `=` removed (`retain(|c| c != '=')`). */
  function StripPadding(s: string): (r: string)
    ensures |r| <= |s|
    ensures forall i | 0 <= i < |r| :: r[i] != '='
    decreases |s|
  {
    if |s| == 0 then ""
    else StripPadding(s[..|s| - 1]) + (if s[|s| - 1] == '=' then "" else [s[|s| - 1]])
  }

  /** The string followed by as many `=` as make its length a multiple of
      four. */
  function Repad(s: string): (r: string)
    ensures |r| % 4 == 0
    ensures |s| <= |r| && r[..|s|] == s
    ensures forall i | |s| <= i < |r| :: r[i] == '='
    ensures |r| < |s| + 4
  {
    s + seq((4 - |s| % 4) % 4, _ => '=')
  }

  lemma {:induction false} StripPaddingAppend(s: string, t: string)
    ensures StripPadding(s + t) == StripPadding(s) + StripPadding(t)
    decreases |t|
  {
    if |t| == 0 {
      assert s + t == s;
    } else {
      var t0 := t[..|t| - 1];
      assert (s + t)[..|s + t| - 1] == s + t0;
      StripPaddingAppend(s, t0);
    }
  }

  lemma {:induction false} StripPaddingKeeps(s: string)
    requires forall i | 0 <= i < |s| :: s[i] != '='
    ensures StripPadding(s) == s
    decreases |s|
  {
    if |s| > 0 {
      StripPaddingKeeps(s[..|s| - 1]);
    }
  }

  lemma {:induction false} StripPaddingDrops(s: string)
    requires forall i | 0 <= i < |s| :: s[i] == '='
    ensures StripPadding(s) == ""
    decreases |s|
  {
    if |s| > 0 {
      StripPaddingDrops(s[..|s| - 1]);
    }
  }

  /** Re-padding the stripped encoding gives back the encoding, which is
      why a JWK `k` exported without `=` decodes after re-padding. */
  lemma RepadStripEncode(b: Bytes)
    ensures Repad(StripPadding(Encode(b))) == Encode(b)
  {
    var s := Encode(b);
    EncodeShape(b);
    var n := |s| - PadCount(|b|);
    forall i | 0 <= i < n
      ensures s[i] != '='
    {
      assert DecodeChar(s[i]).Some?;
    }
    StripTrailingPadding(s, n);
    RepadOfPrefix(s, n);
  }

  /** A string of non-`=` characters followed by `=` characters loses
      exactly the `=` characters. */
  lemma StripTrailingPadding(s: string, n: nat)
    requires n <= |s|
    requires forall i | 0 <= i < n :: s[i] != '='
    requires forall i | n <= i < |s| :: s[i] == '='
    ensures StripPadding(s) == s[..n]
  {
    StripHead(s, n);
    StripTail(s, n);
    assert s == s[..n] + s[n..];
    StripPaddingAppend(s[..n], s[n..]);
  }

  lemma StripHead(s: string, n: nat)
    requires n <= |s|
    requires forall i | 0 <= i < n :: s[i] != '='
    ensures StripPadding(s[..n]) == s[..n]
  {
    var head := s[..n];
    forall i | 0 <= i < |head| ensures head[i] != '=' {
      assert head[i] == s[i];
    }
    StripPaddingKeeps(head);
  }

  lemma StripTail(s: string, n: nat)
    requires n <= |s|
    requires forall i | n <= i < |s| :: s[i] == '='
    ensures StripPadding(s[n..]) == ""
  {
    var tail := s[n..];
    forall i | 0 <= i < |tail| ensures tail[i] == '=' {
      assert tail[i] == s[n + i];
    }
    StripPaddingDrops(tail);
  }

  /** Re-padding a prefix that falls short of a multiple of four by fewer
      than four characters that were all `=` restores the string. */
  lemma RepadOfPrefix(s: string, n: nat)
    requires n <= |s| && |s| % 4 == 0 && |s| - n < 4
    requires forall i | n <= i < |s| :: s[i] == '='
    ensures Repad(s[..n]) == s
  {
    assert (4 - n % 4) % 4 == |s| - n;
    assert s[n..] == seq(|s| - n, _ => '=');
    assert s == s[..n] + s[n..];
  }

  /** A JWK key value travels through export and import unchanged. */
  lemma JwkValueRoundTrip(b: Bytes)
    ensures Decode(Repad(StripPadding(Encode(b)))) == Some(b)
  {
    RepadStripEncode(b);
    DecodeEncode(b);
  }

  /** The base64url characters '-' and '_' are not in the alphabet, so a
      base64url key value that uses them does not decode. */
  lemma UrlAlphabetRejected(s: string, i: nat)
    requires i < |s| && (s[i] == '-' || s[i] == '_')
    ensures Decode(s).None?
  {
    if Decode(s).Some? {
      var b := Decode(s).value;
      EncodeDecode(s, b);
      EncodeChars(b, i);
      assert false;
    }
  }

  /** Every character of an encoding is `=` or in the alphabet. */
  lemma EncodeChars(b: Bytes, i: nat)
    requires i < |Encode(b)|
    ensures Encode(b)[i] == '=' || DecodeChar(Encode(b)[i]).Some?
  {
    EncodeShape(b);
  }

  // ------------------------------------------------------------ in place

  /** Appends `=` until the length is a multiple of four (the `while` loop
      that re-pads a JWK `k` before decoding). */
  method PadToMultipleOfFour(s: string) returns (r: string)
    ensures r == Repad(s)
  {
    r := s;
    ghost var target := (4 - |s| % 4) % 4;
    while |r| % 4 != 0
      invariant |s| <= |r| <= |s| + target
      invariant r == s + seq(|r| - |s|, _ => '=')
      decreases |s| + target - |r|
    {
      r := r + "=";
    }
  }

  /** Removes every `=` from a character buffer in place, keeping the order
      of the rest (`String::retain`); the kept characters are the first
      `len` of the buffer. */
  method Retain(a: array<char>) returns (len: nat)
    modifies a
    ensures len <= a.Length
    ensures a[..len] == StripPadding(old(a[..]))
  {
    ghost var s := a[..];
    len := 0;
    var i := 0;
    while i < a.Length
      invariant 0 <= len <= i <= a.Length
      invariant a[..len] == StripPadding(s[..i])
      invariant forall k | i <= k < a.Length :: a[k] == s[k]
      decreases a.Length - i
    {
      RetainStep(s, i);
      if a[i] != '=' {
        a[len] := a[i];
        len := len + 1;
      }
      i := i + 1;
    }
    assert s[..i] == s;
  }

  lemma RetainStep(s: string, i: nat)
    requires i < |s|
    ensures StripPadding(s[..i + 1]) == StripPadding(s[..i]) + (if s[i] == '=' then "" else [s[i]])
  {
    assert s[..i + 1][..i] == s[..i];
  }
}
