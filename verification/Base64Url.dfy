/** The device identity's base64url encoding of keys (RFC 4648, sections 3.2, 4 and 5). */
module Base64Url {
  import opened Options

  type byte = i: int | 0 <= i < 256
  type sextet = i: int | 0 <= i < 64

  // ----- groups of three bytes and four sextets

  function Sextet0(a: byte): sextet { a / 4 }

  function Sextet1(a: byte, b: byte): sextet { a % 4 * 16 + b / 16 }

  function Sextet2(b: byte, c: byte): sextet { b % 16 * 4 + c / 64 }

  function Sextet3(c: byte): sextet { c % 64 }

  function Byte0(w: sextet, x: sextet): byte { w as int * 4 + x as int / 16 }

  function Byte1(x: sextet, y: sextet): byte { x as int % 16 * 16 + y as int / 4 }

  function Byte2(y: sextet, z: sextet): byte { y as int % 4 * 64 + z as int }

  /** The bit arithmetic of one group, as a value: the recursion over groups needs only that
      its two halves undo each other. */
  datatype Group = Group(
    s0: byte -> sextet, s1: (byte, byte) -> sextet, s2: (byte, byte) -> sextet, s3: byte -> sextet,
    b0: (sextet, sextet) -> byte, b1: (sextet, sextet) -> byte, b2: (sextet, sextet) -> byte)

  const BITS := Group(Sextet0, Sextet1, Sextet2, Sextet3, Byte0, Byte1, Byte2)

  ghost predicate Decodes(g: Group) {
    && (forall a: byte, b: byte {:trigger g.s1(a, b)} :: g.b0(g.s0(a), g.s1(a, b)) == a)
    && (forall a: byte, b: byte, c: byte {:trigger g.s1(a, b), g.s2(b, c)} :: g.b1(g.s1(a, b), g.s2(b, c)) == b)
    && (forall b: byte, c: byte {:trigger g.s2(b, c)} :: g.b2(g.s2(b, c), g.s3(c)) == c)
  }

  /** Encoded with zero bits after them, the bytes of a short last group give its sextets back
      exactly if it has no loose bits. */
  ghost predicate Encodes(g: Group) {
    && (forall w: sextet, x: sextet {:trigger g.b0(w, x)} ::
          g.s0(g.b0(w, x)) == w && (g.s1(g.b0(w, x), 0) == x <==> x % 16 == 0))
    && (forall w: sextet, x: sextet, y: sextet {:trigger g.b0(w, x), g.b1(x, y)} ::
          g.s1(g.b0(w, x), g.b1(x, y)) == x && (g.s2(g.b1(x, y), 0) == y <==> y % 4 == 0))
    && (forall x: sextet, y: sextet, z: sextet {:trigger g.b1(x, y), g.b2(y, z)} ::
          g.s2(g.b1(x, y), g.b2(y, z)) == y && g.s3(g.b2(y, z)) == z)
  }

  lemma {:induction false} BitsDecode()
    ensures Decodes(BITS)
  {
    var g := BITS;
    forall a: byte, b: byte ensures g.b0(g.s0(a), g.s1(a, b)) == a {
      Byte0Back(a, b);
    }
    forall a: byte, b: byte, c: byte ensures g.b1(g.s1(a, b), g.s2(b, c)) == b {
      Byte1Back(a, b, c);
    }
    forall b: byte, c: byte ensures g.b2(g.s2(b, c), g.s3(c)) == c {
      Byte2Back(b, c);
    }
  }

  lemma {:induction false} Split4(q: int, r: int)
    requires 0 <= r < 4
    ensures (q * 4 + r) / 4 == q && (q * 4 + r) % 4 == r
  {
  }

  lemma {:induction false} Split16(q: int, r: int)
    requires 0 <= r < 16
    ensures (q * 16 + r) / 16 == q && (q * 16 + r) % 16 == r
  {
  }

  lemma {:induction false} Split64(q: int, r: int)
    requires 0 <= r < 64
    ensures (q * 64 + r) / 64 == q && (q * 64 + r) % 64 == r
  {
  }

  lemma {:induction false} Byte0Back(a: byte, b: byte)
    ensures Byte0(Sextet0(a), Sextet1(a, b)) == a
  {
    Split16(a % 4, b / 16);
  }

  lemma {:induction false} Byte1Back(a: byte, b: byte, c: byte)
    ensures Byte1(Sextet1(a, b), Sextet2(b, c)) == b
  {
    Split16(a % 4, b / 16);
    Split4(b % 16, c / 64);
  }

  lemma {:induction false} Byte2Back(b: byte, c: byte)
    ensures Byte2(Sextet2(b, c), Sextet3(c)) == c
  {
    Split4(b % 16, c / 64);
  }

  lemma {:induction false} BitsEncode()
    ensures Encodes(BITS)
  {
    var g := BITS;
    forall w: sextet, x: sextet
      ensures g.s0(g.b0(w, x)) == w && (g.s1(g.b0(w, x), 0) == x <==> x % 16 == 0)
    {
      Sextet0Back(w, x);
    }
    forall w: sextet, x: sextet, y: sextet
      ensures g.s1(g.b0(w, x), g.b1(x, y)) == x && (g.s2(g.b1(x, y), 0) == y <==> y % 4 == 0)
    {
      Sextet1Back(w, x, y);
    }
    forall x: sextet, y: sextet, z: sextet
      ensures g.s2(g.b1(x, y), g.b2(y, z)) == y && g.s3(g.b2(y, z)) == z
    {
      Sextet2Back(x, y, z);
    }
  }

  lemma {:induction false} Sextet0Back(w: sextet, x: sextet)
    ensures Sextet0(Byte0(w, x)) == w && (Sextet1(Byte0(w, x), 0) == x <==> x % 16 == 0)
  {
    Split4(w, x as int / 16);
  }

  lemma {:induction false} Sextet1Back(w: sextet, x: sextet, y: sextet)
    ensures Sextet1(Byte0(w, x), Byte1(x, y)) == x && (Sextet2(Byte1(x, y), 0) == y <==> y % 4 == 0)
  {
    Split4(w, x as int / 16);
    Split16(x as int % 16, y as int / 4);
  }

  lemma {:induction false} Sextet2Back(x: sextet, y: sextet, z: sextet)
    ensures Sextet2(Byte1(x, y), Byte2(y, z)) == y && Sextet3(Byte2(y, z)) == z
  {
    Split16(x as int % 16, y as int / 4);
    Split64(y as int % 4, z);
  }

  function Sextets(g: Group, b: seq<byte>): (x: seq<sextet>)
    ensures |x| % 4 != 1
    decreases |b|
  {
    if |b| == 0 then []
    else if |b| == 1 then [g.s0(b[0]), g.s1(b[0], 0)]
    else if |b| == 2 then [g.s0(b[0]), g.s1(b[0], b[1]), g.s2(b[1], 0)]
    else [g.s0(b[0]), g.s1(b[0], b[1]), g.s2(b[1], b[2]), g.s3(b[2])] + Sextets(g, b[3..])
  }

  function Bytes(g: Group, x: seq<sextet>): (b: seq<byte>)
    requires |x| % 4 != 1
    decreases |x|
  {
    if |x| == 0 then []
    else if |x| == 2 then [g.b0(x[0], x[1])]
    else if |x| == 3 then [g.b0(x[0], x[1]), g.b1(x[1], x[2])]
    else [g.b0(x[0], x[1]), g.b1(x[1], x[2]), g.b2(x[2], x[3])] + Bytes(g, x[4..])
  }

  /** The bits of the last sextet that belong to no byte are zero. */
  predicate NoLooseBits(x: seq<sextet>) {
    && (|x| % 4 == 2 ==> x[|x| - 1] % 16 == 0)
    && (|x| % 4 == 3 ==> x[|x| - 1] % 4 == 0)
  }

  lemma {:induction false} BytesOfSextets(g: Group, b: seq<byte>)
    requires Decodes(g)
    ensures Bytes(g, Sextets(g, b)) == b
    decreases |b|
  {
    if |b| >= 3 {
      BytesOfSextets(g, b[3..]);
      var x := Sextets(g, b);
      assert x[4..] == Sextets(g, b[3..]);
      assert b == [b[0], b[1], b[2]] + b[3..];
    }
  }

  lemma {:induction false} SextetsOfBytes(g: Group, x: seq<sextet>)
    requires Encodes(g) && |x| % 4 != 1
    ensures Sextets(g, Bytes(g, x)) == x <==> NoLooseBits(x)
    decreases |x|
  {
    if |x| >= 4 {
      SextetsOfBytes(g, x[4..]);
      var h := [x[0], x[1], x[2], x[3]];
      SextetsGroup(g, g.b0(x[0], x[1]), g.b1(x[1], x[2]), g.b2(x[2], x[3]), Bytes(g, x[4..]));
      assert x == h + x[4..];
      SameTail(h, x[4..], Sextets(g, Bytes(g, x[4..])));
      LooseTail(x);
    } else {
      LastGroup(g, x);
    }
  }

  lemma {:induction false} LooseTail(x: seq<sextet>)
    requires |x| >= 4 && |x| % 4 != 1
    ensures NoLooseBits(x) <==> NoLooseBits(x[4..])
  {
  }

  lemma {:induction false} SameTail(p: seq<sextet>, a: seq<sextet>, b: seq<sextet>)
    ensures p + a == p + b <==> a == b
  {
    assert (p + a)[|p|..] == a && (p + b)[|p|..] == b;
  }

  lemma {:induction false} SextetsGroup(g: Group, a: byte, b: byte, c: byte, rest: seq<byte>)
    ensures Sextets(g, [a, b, c] + rest) == [g.s0(a), g.s1(a, b), g.s2(b, c), g.s3(c)] + Sextets(g, rest)
  {
    assert ([a, b, c] + rest)[3..] == rest;
  }

  lemma {:induction false} LastGroup(g: Group, x: seq<sextet>)
    requires Encodes(g) && |x| < 4 && |x| != 1
    ensures Sextets(g, Bytes(g, x)) == x <==> NoLooseBits(x)
  {
    var b := Bytes(g, x);
    if |x| == 3 {
      assert Sextets(g, b) == [x[0], x[1], g.s2(b[1], 0)] && x == [x[0], x[1], x[2]];
    } else if |x| == 2 {
      assert Sextets(g, b) == [x[0], g.s1(b[0], 0)] && x == [x[0], x[1]];
    }
  }

  // ----- the alphabets

  /** The standard alphabet; 62 and 63 are `+` and `/`. */
  function Symbol(v: sextet): char {
    if v < 26 then 'A' + v as char
    else if v < 52 then 'a' + (v - 26) as char
    else if v < 62 then '0' + (v - 52) as char
    else if v == 62 then '+' else '/'
  }

  function Value(c: char): Option<sextet> {
    if 'A' <= c <= 'Z' then Some((c - 'A') as int)
    else if 'a' <= c <= 'z' then Some((c - 'a') as int + 26)
    else if '0' <= c <= '9' then Some((c - '0') as int + 52)
    else if c == '+' then Some(62)
    else if c == '/' then Some(63)
    else None
  }

  function ToUrl(c: char): char {
    if c == '+' then '-' else if c == '/' then '_' else c
  }

  function FromUrl(c: char): char {
    if c == '-' then '+' else if c == '_' then '/' else c
  }

  lemma {:induction false} SymbolValue(v: sextet)
    ensures Value(Symbol(v)) == Some(v) && FromUrl(ToUrl(Symbol(v))) == Symbol(v)
  {
  }

  lemma {:induction false} ValueSymbol(c: char)
    requires Value(c).Some?
    ensures Symbol(Value(c).value) == c
  {
  }

  function Spell(x: seq<sextet>): (s: string)
    ensures |s| == |x| && forall i :: 0 <= i < |s| ==> s[i] == Symbol(x[i])
  {
    seq(|x|, i requires 0 <= i < |x| => Symbol(x[i]))
  }

  predicate Spelled(s: string) {
    forall i :: 0 <= i < |s| ==> Value(s[i]).Some?
  }

  function Values(s: string): (x: seq<sextet>)
    requires Spelled(s)
    ensures |x| == |s| && forall i :: 0 <= i < |s| ==> Value(s[i]) == Some(x[i])
  {
    seq(|s|, i requires 0 <= i < |s| => Value(s[i]).value)
  }

  function Replaced(s: string, f: char -> char): (r: string)
    ensures |r| == |s| && forall i :: 0 <= i < |s| ==> r[i] == f(s[i])
  {
    seq(|s|, i requires 0 <= i < |s| => f(s[i]))
  }

  function Equals(k: nat): (r: string)
    ensures |r| == k && forall i :: 0 <= i < k ==> r[i] == '='
  {
    seq(k, _ => '=')
  }

  // ----- btoa and atob

  function Padding(n: nat): nat {
    (4 - n % 4) % 4
  }

  /** Sextets that whole bytes can have: no group of a single one. */
  type Symbols = x: seq<sextet> | |x| % 4 != 1

  function Padded(x: Symbols): string {
    Spell(x) + Equals(Padding(|x|))
  }

  function Btoa(b: seq<byte>): string {
    Padded(Sextets(BITS, b))
  }

  predicate IsAsciiSpace(c: char) {
    c == '\t' || c == '\n' || c == '\U{000C}' || c == '\r' || c == ' '
  }

  function NoSpace(s: string): (r: string)
    ensures |r| <= |s|
  {
    if s == "" then "" else if IsAsciiSpace(s[0]) then NoSpace(s[1..]) else [s[0]] + NoSpace(s[1..])
  }

  lemma {:induction false} SpaceApart(a: string, b: string)
    ensures NoSpace(a + b) == NoSpace(a) + NoSpace(b)
  {
    if a == "" {
      assert a + b == b;
    } else {
      assert (a + b)[0] == a[0] && (a + b)[1..] == a[1..] + b;
      SpaceApart(a[1..], b);
    }
  }

  lemma {:induction false} NothingRemoved(s: string)
    requires forall i :: 0 <= i < |s| ==> !IsAsciiSpace(s[i])
    ensures NoSpace(s) == s
  {
    if s != "" {
      NothingRemoved(s[1..]);
      assert s == [s[0]] + s[1..];
    }
  }

  lemma {:induction false} SpaceReplaced(s: string)
    ensures NoSpace(Replaced(s, FromUrl)) == Replaced(NoSpace(s), FromUrl)
  {
    if s != "" {
      SpaceReplaced(s[1..]);
      assert Replaced(s, FromUrl)[1..] == Replaced(s[1..], FromUrl);
      assert IsAsciiSpace(FromUrl(s[0])) == IsAsciiSpace(s[0]);
    }
  }

  /** One or two `=` at the end of a string of whole groups are padding. */
  function Unpadded(s: string): string {
    if |s| % 4 != 0 || s == "" || s[|s| - 1] != '=' then s
    else if s[|s| - 2] == '=' then s[..|s| - 2]
    else s[..|s| - 1]
  }

  function Read(t: string): Option<Symbols> {
    if |t| % 4 == 1 || !Spelled(t) then None else Some(Values(t))
  }

  function ToBytes(x: Option<Symbols>): Option<seq<byte>> {
    match x
    case None => None
    case Some(v) => Some(Bytes(BITS, v))
  }

  /** The forgiving decoding of the Infra standard: white space is dropped first. `None` where `atob` throws. */
  function Atob(s: string): Option<seq<byte>> {
    ToBytes(Read(Unpadded(NoSpace(s))))
  }

  // ----- the two functions of the device identity

  function Url(x: Symbols): string {
    Replaced(Spell(x), ToUrl)
  }

  /** base64url without padding, from its definition. */
  function Encoded(b: seq<byte>): string {
    Url(Sextets(BITS, b))
  }

  /** `s.replace(/=+$/g, "")` */
  function StripEquals(s: string): (r: string)
    ensures |r| <= |s|
  {
    if s != "" && s[|s| - 1] == '=' then StripEquals(s[..|s| - 1]) else s
  }

  lemma {:induction false} StripShape(s: string)
    ensures var r := StripEquals(s);
      (r == "" || r[|r| - 1] != '=') && s == r + Equals(|s| - |r|)
  {
    if s != "" && s[|s| - 1] == '=' {
      StripShape(s[..|s| - 1]);
      var r := StripEquals(s);
      assert s == s[..|s| - 1] + "=";
      assert Equals(|s| - |r|) == Equals(|s| - 1 - |r|) + "=";
    } else {
      assert s == s + Equals(0);
    }
  }

  /** What decoding reads: apart from white space, symbols of either alphabet and then `=`. The padding
      is computed from the whole length, white space included. */
  function FromUrlText(s: string): Option<Symbols> {
    var text := NoSpace(s);
    var core := StripEquals(text);
    ReadCore(Replaced(core, FromUrl), |text| - |core| + Padding(|s|))
  }

  /** Symbols followed by `k` signs: none, or what completes the last group. */
  function ReadCore(t: string, k: nat): Option<Symbols> {
    if k == 0 || (k <= 2 && (|t| + k) % 4 == 0) then Read(t) else None
  }

  function Decoded(s: string): Option<seq<byte>> {
    ToBytes(FromUrlText(s))
  }

  function Codes(binary: string): (b: seq<byte>)
    requires forall i :: 0 <= i < |binary| ==> binary[i] as int < 256
    ensures |b| == |binary| && forall i :: 0 <= i < |b| ==> b[i] == binary[i] as int
  {
    seq(|binary|, i requires 0 <= i < |binary| => binary[i] as int)
  }

  /** The string of one character for each byte that `btoa` takes and `atob` gives. */
  function Chars(b: seq<byte>): (binary: string)
    ensures |binary| == |b| && forall i :: 0 <= i < |b| ==> binary[i] as int == b[i]
  {
    seq(|b|, i requires 0 <= i < |b| => b[i] as char)
  }

  method Base64UrlEncode(bytes: seq<byte>) returns (r: string)
    ensures r == Encoded(bytes)
  {
    var binary := BinaryString(bytes);
    StripPadding(Sextets(BITS, bytes));
    r := StripEquals(Replaced(Btoa(Codes(binary)), ToUrl));
  }

  /** The loop that grows the string `btoa` takes. */
  method BinaryString(bytes: seq<byte>) returns (binary: string)
    ensures forall i :: 0 <= i < |binary| ==> binary[i] as int < 256
    ensures Codes(binary) == bytes
  {
    binary := "";
    for i := 0 to |bytes|
      invariant |binary| == i && forall j :: 0 <= j < i ==> binary[j] as int == bytes[j]
    {
      binary := binary + [bytes[i] as char];
    }
  }

  method Base64UrlDecode(input: string) returns (r: Option<array<byte>>)
    ensures r.Some? ==> fresh(r.value)
    ensures Contents(r) == Decoded(input)
  {
    var normalized := Replaced(input, FromUrl);
    var padded := normalized + Equals((4 - |normalized| % 4) % 4);
    var decoded := Atob(padded);
    AtobPadded(input, padded);
    if decoded.None? {
      return None;
    }
    var out := CharCodes(Chars(decoded.value), decoded.value);
    return Some(out);
  }

  /** The bytes of the returned array, if any. */
  ghost function Contents(r: Option<array<byte>>): Option<seq<byte>>
    reads if r.Some? then {r.value} else {}
  {
    match r
    case None => None
    case Some(a) => Some(a[..])
  }

  /** The array the decoder fills with the codes of a binary string. */
  method CharCodes(binary: string, ghost bytes: seq<byte>) returns (out: array<byte>)
    requires binary == Chars(bytes)
    ensures fresh(out) && out[..] == bytes
  {
    out := new byte[|binary|];
    for i := 0 to |binary|
      invariant forall j :: 0 <= j < i ==> out[j] == bytes[j]
    {
      out[i] := binary[i] as int % 256;
    }
  }

  lemma {:induction false} StripOnce(core: string, k: nat)
    requires core == "" || core[|core| - 1] != '='
    ensures StripEquals(core + Equals(k)) == core
  {
    var s := core + Equals(k);
    if k > 0 {
      assert s[..|s| - 1] == core + Equals(k - 1);
      StripOnce(core, k - 1);
    } else {
      assert s == core;
    }
  }

  lemma {:induction false} StripPadding(x: Symbols)
    ensures StripEquals(Replaced(Padded(x), ToUrl)) == Url(x)
  {
    var s := Spell(x);
    var k := Padding(|x|);
    assert Replaced(s + Equals(k), ToUrl) == Url(x) + Equals(k);
    UrlSymbols(x);
    StripOnce(Url(x), k);
  }

  /** Decoding the padded input reads what the specification says. */
  lemma {:induction false} AtobPadded(s: string, padded: string)
    requires padded == Replaced(s, FromUrl) + Equals(Padding(|s|))
    ensures Atob(padded) == Decoded(s)
  {
    var text := NoSpace(s);
    var core := StripEquals(text);
    SpaceApart(Replaced(s, FromUrl), Equals(Padding(|s|)));
    SpaceReplaced(s);
    NothingRemoved(Equals(Padding(|s|)));
    PaddedShape(text, Padding(|s|));
    ReadRest(Replaced(core, FromUrl), |text| - |core| + Padding(|s|), NoSpace(padded));
  }

  lemma {:induction false} PaddedShape(s: string, more: nat)
    ensures var t := Replaced(StripEquals(s), FromUrl);
      (t == "" || t[|t| - 1] != '=') && Replaced(s, FromUrl) + Equals(more) == t + Equals(|s| - |t| + more)
  {
    StripShape(s);
    var core := StripEquals(s);
    assert core != "" ==> Replaced(core, FromUrl)[|core| - 1] != '=';
    ReplacedPadding(core, |s| - |core|, more, s);
  }

  lemma {:induction false} ReplacedPadding(core: string, k: nat, more: nat, s: string)
    requires s == core + Equals(k)
    ensures Replaced(s, FromUrl) + Equals(more) == Replaced(core, FromUrl) + Equals(k + more)
  {
  }

  lemma {:induction false} ReadRest(t: string, k: nat, padded: string)
    requires t == "" || t[|t| - 1] != '='
    requires padded == t + Equals(k)
    ensures Read(Unpadded(padded)) == ReadCore(t, k)
  {
    if (|t| + k) % 4 == 0 {
      UnpaddedPart(t, k, padded);
    } else if k == 0 {
      assert padded == t;
    } else {
      assert padded[|t|] == '=' && Value('=').None?;
    }
  }

  lemma {:induction false} UnpaddedPart(t: string, k: nat, s: string)
    requires t == "" || t[|t| - 1] != '='
    requires s == t + Equals(k) && |s| % 4 == 0
    ensures if k <= 2 then Unpadded(s) == t else !Spelled(Unpadded(s))
  {
    if k == 0 {
      assert s == t;
    } else if k == 1 {
      assert s[..|s| - 1] == t;
    } else {
      assert s[|s| - 1] == '=' && s[|s| - 2] == '=';
      if k == 2 {
        assert s[..|s| - 2] == t;
      } else {
        assert s[..|s| - 2][|t|] == '=' && Value('=').None?;
      }
    }
  }

  /** Without white space the recomputed padding is exactly what is missing: the input may have any part
      of its padding, and nothing more. */
  lemma {:induction false} PaddingCompleted(s: string)
    requires NoSpace(s) == s
    ensures var core := StripEquals(s);
      FromUrlText(s) == if |s| - |core| > Padding(|core|) then None else Read(Replaced(core, FromUrl))
  {
    var core := StripEquals(s);
    PaddingLeft(|core|, |s| - |core|);
  }

  lemma {:induction false} PaddingLeft(n: nat, k: nat)
    ensures n % 4 != 1 ==> (k + Padding(n + k) <= 2 <==> k <= Padding(n))
    ensures n % 4 == 1 ==> k + Padding(n + k) > 2
    ensures (n + (k + Padding(n + k))) % 4 == 0
  {
  }

  /** White space in unpadded text is tolerated only where it does not spoil the padding, which is computed
      from the length with it: when there are 4n such characters, or the whole length is a multiple of four. */
  lemma {:induction false} SpaceTolerated(s: string)
    requires StripEquals(NoSpace(s)) == NoSpace(s)
    ensures var spaces := |s| - |NoSpace(s)|;
      FromUrlText(s) == if spaces % 4 == 0 || |s| % 4 == 0 then FromUrlText(NoSpace(s)) else None
  {
    NoSpaceTwice(s);
    ReadUnpadded(s, NoSpace(s));
    ReadUnpadded(NoSpace(s), NoSpace(s));
    CoreOfLength(Replaced(NoSpace(s), FromUrl), |s|);
  }

  lemma {:induction false} CoreOfLength(t: string, n: nat)
    requires |t| <= n
    ensures ReadCore(t, Padding(n)) ==
      if (n - |t|) % 4 == 0 || n % 4 == 0 then ReadCore(t, Padding(|t|)) else None
  {
    CoreWithSpaces(t, n - |t|);
    CoreWithSpaces(t, 0);
  }

  lemma {:induction false} ReadUnpadded(s: string, text: string)
    requires text == NoSpace(s) && StripEquals(text) == text
    ensures FromUrlText(s) == ReadCore(Replaced(text, FromUrl), Padding(|s|))
  {
  }

  lemma {:induction false} NoSpaceTwice(s: string)
    ensures NoSpace(NoSpace(s)) == NoSpace(s)
  {
    if s != "" {
      NoSpaceTwice(s[1..]);
      if !IsAsciiSpace(s[0]) {
        assert NoSpace(s)[1..] == NoSpace(s[1..]);
      }
    }
  }

  lemma {:induction false} CoreWithSpaces(t: string, spaces: nat)
    ensures ReadCore(t, Padding(|t| + spaces)) == if spaces % 4 == 0 || (|t| + spaces) % 4 == 0 then Read(t) else None
  {
    if |t| % 4 != 1 {
      SpacesAndPadding(|t|, spaces);
    }
  }

  lemma {:induction false} SpacesAndPadding(n: nat, spaces: nat)
    requires n % 4 != 1
    ensures var p := Padding(n + spaces);
      (p == 0 || (p <= 2 && (n + p) % 4 == 0)) <==> spaces % 4 == 0 || (n + spaces) % 4 == 0
  {
  }

  // ----- round trips

  lemma {:induction false} UrlSymbols(x: Symbols)
    ensures forall i :: 0 <= i < |x| ==>
      Value(FromUrl(Url(x)[i])) == Some(x[i]) && Url(x)[i] != '=' && Url(x)[i] != '+' && Url(x)[i] != '/'
  {
    forall i | 0 <= i < |x|
      ensures Value(FromUrl(Url(x)[i])) == Some(x[i])
      ensures Url(x)[i] != '=' && Url(x)[i] != '+' && Url(x)[i] != '/'
    {
      SymbolValue(x[i]);
    }
  }

  lemma {:induction false} SymbolsOnly(s: string)
    requires Spelled(Replaced(s, FromUrl))
    ensures FromUrlText(s) == Read(Replaced(s, FromUrl))
  {
    var t := Replaced(s, FromUrl);
    assert forall i :: 0 <= i < |s| ==> Value(t[i]).Some? && t[i] == FromUrl(s[i]);
    NothingRemoved(s);
    PaddingCompleted(s);
  }

  lemma {:induction false} UrlComesBack(x: Symbols)
    ensures FromUrlText(Url(x)) == Some(x)
  {
    UrlSymbols(x);
    var t := Replaced(Url(x), FromUrl);
    assert Spelled(t) && Values(t) == x;
    SymbolsOnly(Url(x));
  }

  /** Every byte string comes back. */
  lemma {:induction false} DecodeEncode(b: seq<byte>)
    ensures Decoded(Encoded(b)) == Some(b)
  {
    UrlComesBack(Sextets(BITS, b));
    BitsDecode();
    BytesOfSextets(BITS, b);
  }

  /** Text in the URL-safe alphabet only, without a group of a single symbol. */
  ghost predicate IsUrl(s: string) {
    && |s| % 4 != 1
    && (forall i :: 0 <= i < |s| ==> s[i] != '+' && s[i] != '/')
    && Spelled(Replaced(s, FromUrl))
  }

  /** The strings the encoder can produce: such text, without loose bits. */
  ghost predicate Canonical(s: string) {
    IsUrl(s) && NoLooseBits(Values(Replaced(s, FromUrl)))
  }

  lemma {:induction false} TextComesBack(s: string)
    requires IsUrl(s)
    ensures FromUrlText(s) == Some(Values(Replaced(s, FromUrl)))
    ensures Url(Values(Replaced(s, FromUrl))) == s
  {
    var t := Replaced(s, FromUrl);
    var x := Values(t);
    SymbolsOnly(s);
    forall i | 0 <= i < |s| ensures ToUrl(Symbol(x[i])) == s[i] {
      ValueSymbol(t[i]);
    }
  }

  /** A string comes back from its bytes exactly when it is canonical. */
  lemma {:induction false} EncodeDecode(s: string)
    ensures (exists b :: s == Encoded(b)) <==> Canonical(s)
    ensures Canonical(s) ==> Decoded(s).Some? && Encoded(Decoded(s).value) == s
  {
    if Canonical(s) {
      CanonicalComesBack(s, Values(Replaced(s, FromUrl)));
    }
    if b :| s == Encoded(b) {
      EncodedIsCanonical(Sextets(BITS, b), b);
    }
  }

  lemma {:induction false} CanonicalComesBack(s: string, x: Symbols)
    requires IsUrl(s) && x == Values(Replaced(s, FromUrl)) && NoLooseBits(x)
    ensures Decoded(s) == Some(Bytes(BITS, x)) && Encoded(Bytes(BITS, x)) == s
  {
    TextComesBack(s);
    BitsEncode();
    SextetsOfBytes(BITS, x);
  }

  lemma {:induction false} EncodedIsCanonical(x: Symbols, b: seq<byte>)
    requires x == Sextets(BITS, b)
    ensures Canonical(Url(x))
  {
    UrlSymbols(x);
    assert Values(Replaced(Url(x), FromUrl)) == x;
    BitsDecode();
    BytesOfSextets(BITS, b);
    BitsEncode();
    SextetsOfBytes(BITS, x);
  }
}
