/** What base64url text means, by the tables of RFC 4648 (sections 4 and 5): which character stands
    for which bits of the bytes. */
module Base64Layout {
  import opened Options
  import opened Base64Url

  /** Table 1, and table 2 where it differs. */
  const UPPER := "ABCDEFGHIJKLMNOPQRSTUVWXYZ"
  const LOWER := "abcdefghijklmnopqrstuvwxyz"
  const DIGITS := "0123456789"
  const STANDARD := UPPER + LOWER + DIGITS + "+/"
  const URL_SAFE := UPPER + LOWER + DIGITS + "-_"

  lemma {:induction false} Tables(v: sextet)
    ensures |STANDARD| == |URL_SAFE| == 64
    ensures Symbol(v) == STANDARD[v] && ToUrl(Symbol(v)) == URL_SAFE[v]
  {
    if v < 26 {
      Letter(v);
    } else if v < 52 {
      Letter(v - 26);
    } else if v < 62 {
      assert DIGITS[v - 52] == '0' + (v - 52) as char;
    }
  }

  lemma {:induction false} Letter(v: int)
    requires 0 <= v < 26
    ensures |UPPER| == |LOWER| == 26 && UPPER[v] == 'A' + v as char && LOWER[v] == 'a' + v as char
  {
  }

  /** The characters that are read, and only those: either alphabet's. */
  lemma {:induction false} TablesRead(c: char, v: sextet)
    ensures Value(FromUrl(c)) == Some(v) <==> c == STANDARD[v] || c == URL_SAFE[v]
  {
    Tables(v);
    SymbolValue(v);
    if Value(FromUrl(c)) == Some(v) {
      ValueSymbol(FromUrl(c));
    }
  }

  /** Six bits to each character, from the highest on: a whole group has the 24 bits of its three bytes, and
      the last one those of one or two bytes and then zeros. */
  ghost predicate SameBits(b: seq<byte>, x: seq<sextet>) {
    var n := |b| / 3;
    && |x| == (4 * |b| + 2) / 3
    && (forall i {:trigger Group24(x, i)} :: 0 <= i < n ==> Group24(x, i) == Bytes24(b, i))
    && (|b| % 3 == 1 ==> x[4 * n] as int * 64 + x[4 * n + 1] as int == b[3 * n] as int * 16)
    && (|b| % 3 == 2 ==>
          x[4 * n] as int * 4096 + x[4 * n + 1] as int * 64 + x[4 * n + 2] as int
          == (b[3 * n] as int * 256 + b[3 * n + 1] as int) * 4)
  }

  function Group24(x: seq<sextet>, i: nat): int
    requires 4 * i + 3 < |x|
  {
    x[4 * i] as int * 262144 + x[4 * i + 1] as int * 4096 + x[4 * i + 2] as int * 64 + x[4 * i + 3] as int
  }

  function Bytes24(b: seq<byte>, i: nat): int
    requires 3 * i + 2 < |b|
  {
    b[3 * i] as int * 65536 + b[3 * i + 1] as int * 256 + b[3 * i + 2] as int
  }

  lemma {:induction false} OneGroup(a: byte, b: byte, c: byte)
    ensures Sextet0(a) as int * 262144 + Sextet1(a, b) as int * 4096 + Sextet2(b, c) as int * 64 + Sextet3(c) as int
         == a as int * 65536 + b as int * 256 + c as int
    ensures Sextet0(a) as int * 64 + Sextet1(a, 0) as int == a as int * 16
    ensures Sextet0(a) as int * 4096 + Sextet1(a, b) as int * 64 + Sextet2(b, 0) as int
         == (a as int * 256 + b as int) * 4
  {
  }

  lemma {:induction false} SextetsHaveBits(b: seq<byte>)
    ensures SameBits(b, Sextets(BITS, b))
    decreases |b|
  {
    if |b| == 1 {
      OneGroup(b[0], 0, 0);
    } else if |b| == 2 {
      OneGroup(b[0], b[1], 0);
    } else if |b| >= 3 {
      SextetsHaveBits(b[3..]);
      OneGroup(b[0], b[1], b[2]);
      var first := [Sextet0(b[0]), Sextet1(b[0], b[1]), Sextet2(b[1], b[2]), Sextet3(b[2])];
      GroupBefore(b, first, Sextets(BITS, b[3..]));
    }
  }

  lemma {:induction false} GroupBefore(b: seq<byte>, first: seq<sextet>, y: seq<sextet>)
    requires |b| >= 3 && |first| == 4 && Group24(first, 0) == Bytes24(b, 0) && SameBits(b[3..], y)
    ensures SameBits(b, first + y)
  {
    var x, n := first + y, |b| / 3;
    assert |b[3..]| / 3 == n - 1 && |b[3..]| % 3 == |b| % 3;
    forall i {:trigger Group24(x, i)} | 0 <= i < n ensures Group24(x, i) == Bytes24(b, i) {
      if i == 0 {
        assert Group24(x, 0) == Group24(first, 0);
      } else {
        assert Group24(x, i) == Group24(y, i - 1);
        assert Bytes24(b, i) == Bytes24(b[3..], i - 1);
      }
    }
    assert |b| % 3 > 0 ==> x[4 * n] == y[4 * (n - 1)] && b[3 * n] == b[3..][3 * (n - 1)];
  }

  /** Decoding takes the bits off again; those that make no whole byte are dropped, whatever they are. */
  ghost predicate BitsTaken(x: seq<sextet>, b: seq<byte>) {
    var n := |x| / 4;
    && |b| == 3 * |x| / 4
    && (forall i {:trigger Bytes24(b, i)} :: 0 <= i < n ==> Bytes24(b, i) == Group24(x, i))
    && (|x| % 4 == 2 ==> b[3 * n] as int == (x[4 * n] as int * 64 + x[4 * n + 1] as int) / 16)
    && (|x| % 4 == 3 ==>
          b[3 * n] as int * 256 + b[3 * n + 1] as int
          == (x[4 * n] as int * 4096 + x[4 * n + 1] as int * 64 + x[4 * n + 2] as int) / 4)
  }

  lemma {:induction false} OneGroupTaken(w: sextet, x: sextet, y: sextet, z: sextet)
    ensures Byte0(w, x) as int * 65536 + Byte1(x, y) as int * 256 + Byte2(y, z) as int
         == w as int * 262144 + x as int * 4096 + y as int * 64 + z as int
    ensures Byte0(w, x) as int == (w as int * 64 + x as int) / 16
    ensures Byte0(w, x) as int * 256 + Byte1(x, y) as int == (w as int * 4096 + x as int * 64 + y as int) / 4
  {
  }

  lemma {:induction false} BytesHaveBits(x: seq<sextet>)
    requires |x| % 4 != 1
    ensures BitsTaken(x, Bytes(BITS, x))
    decreases |x|
  {
    if |x| == 2 {
      OneGroupTaken(x[0], x[1], 0, 0);
    } else if |x| == 3 {
      OneGroupTaken(x[0], x[1], x[2], 0);
    } else if |x| >= 4 {
      BytesHaveBits(x[4..]);
      OneGroupTaken(x[0], x[1], x[2], x[3]);
      TakenBefore(x, [Byte0(x[0], x[1]), Byte1(x[1], x[2]), Byte2(x[2], x[3])], Bytes(BITS, x[4..]));
    }
  }

  lemma {:induction false} TakenBefore(x: seq<sextet>, first: seq<byte>, c: seq<byte>)
    requires |x| >= 4 && |first| == 3 && Bytes24(first, 0) == Group24(x, 0) && BitsTaken(x[4..], c)
    ensures BitsTaken(x, first + c)
  {
    var b, n := first + c, |x| / 4;
    assert |x[4..]| / 4 == n - 1 && |x[4..]| % 4 == |x| % 4;
    forall i {:trigger Bytes24(b, i)} | 0 <= i < n ensures Bytes24(b, i) == Group24(x, i) {
      if i == 0 {
        assert Bytes24(b, 0) == Bytes24(first, 0);
      } else {
        assert Bytes24(b, i) == Bytes24(c, i - 1);
        assert Group24(x, i) == Group24(x[4..], i - 1);
      }
    }
    assert |x| % 4 > 1 ==> b[3 * n] == c[3 * (n - 1)] && x[4 * n] == x[4..][4 * (n - 1)];
  }

  /** Unpadded text of either table is decoded exactly if no single symbol is left over, into those bytes. */
  lemma {:induction false} DecodedLayout(s: string, x: seq<sextet>)
    requires |s| == |x| && forall k :: 0 <= k < |x| ==> s[k] == STANDARD[x[k]] || s[k] == URL_SAFE[x[k]]
    ensures match Decoded(s)
      case Some(b) => |x| % 4 != 1 && BitsTaken(x, b)
      case None => |x| % 4 == 1
  {
    var t := Replaced(s, FromUrl);
    forall k | 0 <= k < |x| ensures Value(t[k]) == Some(x[k]) {
      TablesRead(s[k], x[k]);
    }
    SymbolsOnly(s);
    if |x| % 4 != 1 {
      assert Values(t) == x;
      BytesHaveBits(x);
    }
  }

  /** Without white space and `=`, nothing else is decoded. */
  lemma {:induction false} OtherTextRefused(s: string, k: nat)
    requires k < |s| && forall j :: 0 <= j < |s| ==> !IsAsciiSpace(s[j]) && s[j] != '='
    requires forall v: sextet :: s[k] != STANDARD[v] && s[k] != URL_SAFE[v]
    ensures Decoded(s) == None
  {
    var t := Replaced(s, FromUrl);
    if Value(t[k]).Some? {
      TablesRead(s[k], Value(t[k]).value);
    }
    NothingRemoved(s);
    assert s[|s| - 1] != '=';
    PaddingCompleted(s);
  }

  /** The encoder's text: each character stands for its six bits in the URL-safe table. */
  lemma {:induction false} EncodedLayout(b: seq<byte>)
    ensures exists x :: SameBits(b, x) && InTable(Encoded(b), x)
  {
    var x := Sextets(BITS, b);
    SextetsHaveBits(b);
    forall k | 0 <= k < |x| ensures Encoded(b)[k] == URL_SAFE[x[k]] {
      Tables(x[k]);
    }
    assert InTable(Encoded(b), x);
  }

  predicate InTable(s: string, x: seq<sextet>) {
    |s| == |x| && forall k :: 0 <= k < |x| ==> s[k] == URL_SAFE[x[k]]
  }
}
