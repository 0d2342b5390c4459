/**
  Base64 as the repository uses it through Python's standard library: encoding with
  either alphabet (sections 4 and 5 of RFC 4648), the decoder that skips characters
  outside the alphabet, and the unpadded URL-safe form of the session cookies.
 */
module Base64 {
  import opened Bytes
  import opened Wrappers

  datatype Alphabet = Standard | UrlSafe

  function Symbol(alphabet: Alphabet, v: nat): char
    requires v < 64
  {
    if v < 26 then 'A' + v as char
    else if v < 52 then 'a' + (v - 26) as char
    else if v < 62 then '0' + (v - 52) as char
    else if alphabet.Standard? then (if v == 62 then '+' else '/')
    else (if v == 62 then '-' else '_')
  }

  /** The URL-safe decoder translates '-' and '_' and so accepts all four extra symbols. */
  function Value(alphabet: Alphabet, ch: char): (v: Option<nat>)
    ensures v.Some? ==> v.value < 64
  {
    if 'A' <= ch <= 'Z' then Some(ch as nat - 'A' as nat)
    else if 'a' <= ch <= 'z' then Some(ch as nat - 'a' as nat + 26)
    else if '0' <= ch <= '9' then Some(ch as nat - '0' as nat + 52)
    else if ch == '+' || (alphabet.UrlSafe? && ch == '-') then Some(62)
    else if ch == '/' || (alphabet.UrlSafe? && ch == '_') then Some(63)
    else None
  }

  lemma SymbolValue(alphabet: Alphabet, v: nat)
    requires v < 64
    ensures Value(alphabet, Symbol(alphabet, v)) == Some(v)
    ensures Symbol(alphabet, v) != '=' && Symbol(alphabet, v) != '.' && Symbol(alphabet, v) as nat < 128
  {}

  // -------------------------------------------------------------- encoder ----

  /** The symbols alone: three bytes make four, a rest of one or two makes two or three. */
  function Symbols(alphabet: Alphabet, b: bytes): string {
    if b == [] then ""
    else if |b| == 1 then
      [Symbol(alphabet, First(b[0])), Symbol(alphabet, Second(b[0], 0))]
    else if |b| == 2 then
      [Symbol(alphabet, First(b[0])), Symbol(alphabet, Second(b[0], b[1])), Symbol(alphabet, Third(b[1], 0))]
    else
      Group(alphabet, b[0], b[1], b[2], Symbols(alphabet, b[3..]))
  }

  /** Four symbols for three bytes, and what follows. */
  function Group(alphabet: Alphabet, x: byte, y: byte, z: byte, rest: string): string {
    [Symbol(alphabet, First(x))] + ([Symbol(alphabet, Second(x, y))]
    + ([Symbol(alphabet, Third(y, z))] + ([Symbol(alphabet, Fourth(z))] + rest)))
  }

  lemma GroupAppend(alphabet: Alphabet, x: byte, y: byte, z: byte, rest: string, tail: string)
    ensures Group(alphabet, x, y, z, rest) + tail == Group(alphabet, x, y, z, rest + tail)
  {
    hide Symbol, First, Second, Third, Fourth;
  }

  function First(x: byte): (v: nat) ensures v < 64 { (x / 4) as nat }
  function Second(x: byte, y: byte): (v: nat) ensures v < 64 { (x % 4) as nat * 16 + (y / 16) as nat }
  function Third(y: byte, z: byte): (v: nat) ensures v < 64 { (y % 16) as nat * 4 + (z / 64) as nat }
  function Fourth(z: byte): (v: nat) ensures v < 64 { (z % 64) as nat }

  function Padding(n: nat): string {
    if n % 3 == 1 then "==" else if n % 3 == 2 then "=" else ""
  }

  function Encode(alphabet: Alphabet, b: bytes): string {
    Symbols(alphabet, b) + Padding(|b|)
  }

  // -------------------------------------------------------------- decoder ----

  /**
    The decoder's loop: `quad` symbols of the current group of four are consumed,
    their undelivered bits are `left`, and `pads` padding characters followed.
   */
  function DecodeFrom(alphabet: Alphabet, s: string, quad: nat, left: nat, pads: nat): Option<bytes>
    requires quad < 4 && left < 64 && (quad == 2 ==> left < 16) && (quad == 3 ==> left < 4)
    decreases |s|
  {
    if s == [] then (if quad == 0 then Some([]) else None)
    else if s[0] == '=' then
      if quad >= 2 && quad + pads + 1 >= 4 then Some([])
      else DecodeFrom(alphabet, s[1..], quad, left, if quad >= 2 then pads + 1 else pads)
    else match Value(alphabet, s[0])
      case None => DecodeFrom(alphabet, s[1..], quad, left, pads)
      case Some(v) =>
        if quad == 0 then DecodeFrom(alphabet, s[1..], 1, v, 0)
        else if quad == 1 then Deliver(left * 4 + v / 16, DecodeFrom(alphabet, s[1..], 2, v % 16, 0))
        else if quad == 2 then Deliver(left * 16 + v / 4, DecodeFrom(alphabet, s[1..], 3, v % 4, 0))
        else Deliver(left * 64 + v, DecodeFrom(alphabet, s[1..], 0, 0, 0))
  }

  function Deliver(b: nat, rest: Option<bytes>): Option<bytes>
    requires b < 256
  {
    match rest case None => None case Some(r) => Some([b as byte] + r)
  }

  /** Decoding text: characters outside ASCII are an error, others outside the alphabet are skipped. */
  function Decode(alphabet: Alphabet, s: string): Option<bytes> {
    if exists i :: 0 <= i < |s| && s[i] as nat >= 128 then None else DecodeFrom(alphabet, s, 0, 0, 0)
  }

  // ----------------------------------------------------------- round trip ----

  predicate Plain(s: string) {
    forall i :: 0 <= i < |s| ==> s[i] as nat < 128 && s[i] != '.'
  }

  lemma SymbolsArePlain(alphabet: Alphabet)
    ensures forall v: nat :: v < 64 ==>
      Symbol(alphabet, v) as nat < 128 && Symbol(alphabet, v) != '.' && Symbol(alphabet, v) != '='
  {
    forall v: nat | v < 64
      ensures Symbol(alphabet, v) as nat < 128 && Symbol(alphabet, v) != '.' && Symbol(alphabet, v) != '='
    {
      SymbolValue(alphabet, v);
    }
  }

  lemma GroupPlain(alphabet: Alphabet, x: byte, y: byte, z: byte, rest: string)
    requires Plain(rest) && '=' !in rest
    ensures Plain(Group(alphabet, x, y, z, rest)) && '=' !in Group(alphabet, x, y, z, rest)
    ensures |Group(alphabet, x, y, z, rest)| == 4 + |rest|
  {
    hide Symbol, First, Second, Third, Fourth;
    SymbolsArePlain(alphabet);
  }

  lemma {:induction false} SymbolsPlain(alphabet: Alphabet, b: bytes)
    ensures Plain(Symbols(alphabet, b)) && '=' !in Symbols(alphabet, b)
    ensures |Symbols(alphabet, b)| % 4 == (if |b| % 3 == 0 then 0 else |b| % 3 + 1)
  {
    hide Symbol, First, Second, Third, Fourth, Group;
    SymbolsArePlain(alphabet);
    if |b| >= 3 {
      SymbolsPlain(alphabet, b[3..]);
      GroupPlain(alphabet, b[0], b[1], b[2], Symbols(alphabet, b[3..]));
    }
  }

  lemma DecodeSymbol(alphabet: Alphabet, v: nat, s: string, quad: nat, left: nat)
    requires v < 64 && quad < 4 && left < 64 && (quad == 2 ==> left < 16) && (quad == 3 ==> left < 4)
    ensures DecodeFrom(alphabet, [Symbol(alphabet, v)] + s, quad, left, 0) ==
      if quad == 0 then DecodeFrom(alphabet, s, 1, v, 0)
      else if quad == 1 then Deliver(left * 4 + v / 16, DecodeFrom(alphabet, s, 2, v % 16, 0))
      else if quad == 2 then Deliver(left * 16 + v / 4, DecodeFrom(alphabet, s, 3, v % 4, 0))
      else Deliver(left * 64 + v, DecodeFrom(alphabet, s, 0, 0, 0))
  {
    hide Symbol, Value, Deliver;
    SymbolValue(alphabet, v);
    assert ([Symbol(alphabet, v)] + s)[1..] == s;
  }

  lemma ByteFromSextets(x: byte, y: byte, z: byte)
    ensures First(x) * 4 + Second(x, y) / 16 == x as nat && Second(x, y) % 16 == (y / 16) as nat
    ensures (y / 16) as nat * 16 + Third(y, z) / 4 == y as nat && Third(y, z) % 4 == (z / 64) as nat
    ensures (z / 64) as nat * 64 + Fourth(z) == z as nat
  {}

  lemma {:induction false} DecodeSymbols(alphabet: Alphabet, b: bytes)
    ensures DecodeFrom(alphabet, Symbols(alphabet, b) + Padding(|b|), 0, 0, 0) == Some(b)
  {
    hide Symbol, First, Second, Third, Fourth, Value;
    if |b| == 0 {
      DecodeEnd(alphabet);
    } else if |b| == 1 {
      OneByteText(alphabet, b);
      DecodeOne(alphabet, b[0]);
    } else if |b| == 2 {
      TwoBytesText(alphabet, b);
      DecodeTwo(alphabet, b[0], b[1]);
    } else {
      hide Group, DecodeFrom;
      DecodeSymbols(alphabet, b[3..]);
      var rest := Symbols(alphabet, b[3..]);
      GroupAppend(alphabet, b[0], b[1], b[2], rest, Padding(|b|));
      assert Padding(|b|) == Padding(|b[3..]|);
      DecodeThree(alphabet, b[0], b[1], b[2], rest + Padding(|b|));
      assert b == [b[0]] + ([b[1]] + ([b[2]] + b[3..]));
    }
  }

  lemma OneByteText(alphabet: Alphabet, b: bytes)
    requires |b| == 1
    ensures b == [b[0]]
    ensures Symbols(alphabet, b) + Padding(|b|)
         == [Symbol(alphabet, First(b[0]))] + ([Symbol(alphabet, Second(b[0], 0))] + "==")
  {
    hide Symbol, First, Second, Third, Fourth;
  }

  lemma TwoBytesText(alphabet: Alphabet, b: bytes)
    requires |b| == 2
    ensures b == [b[0]] + [b[1]]
    ensures Symbols(alphabet, b) + Padding(|b|)
         == [Symbol(alphabet, First(b[0]))] + ([Symbol(alphabet, Second(b[0], b[1]))]
            + ([Symbol(alphabet, Third(b[1], 0))] + "="))
  {
    hide Symbol, First, Second, Third, Fourth;
  }

  lemma DecodeEnd(alphabet: Alphabet)
    ensures DecodeFrom(alphabet, "", 0, 0, 0) == Some([])
    ensures DecodeFrom(alphabet, "=", 3, 0, 0) == Some([])
    ensures DecodeFrom(alphabet, "==", 2, 0, 0) == Some([])
  {
    assert "=="[1..] == "=";
  }

  lemma DecodeThree(alphabet: Alphabet, x: byte, y: byte, z: byte, rest: string)
    requires DecodeFrom(alphabet, rest, 0, 0, 0).Some?
    ensures DecodeFrom(alphabet, Group(alphabet, x, y, z, rest), 0, 0, 0)
         == Some([x] + ([y] + ([z] + DecodeFrom(alphabet, rest, 0, 0, 0).value)))
  {
    ByteFromSextets(x, y, z);
    hide Symbol, First, Second, Third, Fourth, Value, DecodeFrom;
    var s4 := [Symbol(alphabet, Fourth(z))] + rest;
    var s3 := [Symbol(alphabet, Third(y, z))] + s4;
    var s2 := [Symbol(alphabet, Second(x, y))] + s3;
    DecodeSymbol(alphabet, First(x), s2, 0, 0);
    DecodeSymbol(alphabet, Second(x, y), s3, 1, First(x));
    DecodeSymbol(alphabet, Third(y, z), s4, 2, (y / 16) as nat);
    DecodeSymbol(alphabet, Fourth(z), rest, 3, (z / 64) as nat);
  }

  lemma DecodeTwo(alphabet: Alphabet, x: byte, y: byte)
    ensures DecodeFrom(alphabet, [Symbol(alphabet, First(x))] + ([Symbol(alphabet, Second(x, y))]
        + ([Symbol(alphabet, Third(y, 0))] + "=")), 0, 0, 0) == Some([x] + [y])
  {
    ByteFromSextets(x, y, 0);
    DecodeEnd(alphabet);
    hide Symbol, First, Second, Third, Fourth, Value, DecodeFrom;
    var s3 := [Symbol(alphabet, Third(y, 0))] + "=";
    var s2 := [Symbol(alphabet, Second(x, y))] + s3;
    DecodeSymbol(alphabet, First(x), s2, 0, 0);
    DecodeSymbol(alphabet, Second(x, y), s3, 1, First(x));
    DecodeSymbol(alphabet, Third(y, 0), "=", 2, (y / 16) as nat);
    assert [y] + [] == [y];
  }

  lemma DecodeOne(alphabet: Alphabet, x: byte)
    ensures DecodeFrom(alphabet, [Symbol(alphabet, First(x))] + ([Symbol(alphabet, Second(x, 0))] + "=="), 0, 0, 0)
         == Some([x])
  {
    ByteFromSextets(x, 0, 0);
    DecodeEnd(alphabet);
    hide Symbol, First, Second, Third, Fourth, Value, DecodeFrom;
    var s2 := [Symbol(alphabet, Second(x, 0))] + "==";
    DecodeSymbol(alphabet, First(x), s2, 0, 0);
    DecodeSymbol(alphabet, Second(x, 0), "==", 1, First(x));
    assert [x] + [] == [x];
  }

  /** Decoding inverts encoding, for every byte string and both alphabets. */
  lemma DecodeEncode(alphabet: Alphabet, b: bytes)
    ensures Decode(alphabet, Encode(alphabet, b)) == Some(b)
  {
    hide Symbols, DecodeFrom;
    SymbolsPlain(alphabet, b);
    DecodeSymbols(alphabet, b);
  }

  // --------------------------------------------------------- unpadded form ----

  function RStrip(s: string, ch: char): string {
    if s != [] && s[|s| - 1] == ch then RStrip(s[..|s| - 1], ch) else s
  }

  /** URL-safe encoding with the padding stripped. */
  function B64u(b: bytes): string {
    RStrip(Encode(UrlSafe, b), '=')
  }

  /** Python's `-n % 4`. */
  function MissingPadding(n: nat): (p: nat)
    ensures p < 4 && (n + p) % 4 == 0
  {
    (4 - n % 4) % 4
  }

  function B64uDecode(s: string): Option<bytes> {
    Decode(UrlSafe, s + seq(MissingPadding(|s|), _ => '='))
  }

  lemma StripPadding(s: string, n: nat)
    requires '=' !in s
    ensures RStrip(s + Padding(n), '=') == s
  {
    var p := Padding(n);
    assert RStrip(s, '=') == s;
    if n % 3 == 2 {
      assert (s + p)[..|s + p| - 1] == s;
    } else if n % 3 == 1 {
      assert (s + p)[..|s + p| - 1] == s + "=";
      assert (s + "=")[..|s|] == s;
      assert RStrip(s + "=", '=') == RStrip(s, '=');
    } else {
      assert s + p == s;
    }
  }

  /** The padding that was stripped is re-derived from the length alone. */
  lemma B64uRoundTrip(b: bytes)
    ensures B64uDecode(B64u(b)) == Some(b) && '.' !in B64u(b)
  {
    hide Symbols, Decode, RStrip;
    var s := Symbols(UrlSafe, b);
    SymbolsPlain(UrlSafe, b);
    StripPadding(s, |b|);
    DecodeEncode(UrlSafe, b);
    assert seq(MissingPadding(|s|), _ => '=') == Padding(|b|);
  }

  // ------------------------------------------------------------- the text ----

  predicate Alphanumeric(ch: char) {
    'A' <= ch <= 'Z' || 'a' <= ch <= 'z' || '0' <= ch <= '9'
  }

  /** The symbols of the standard and of the URL-safe alphabet. */
  predicate InAlphabet(alphabet: Alphabet, ch: char) {
    Alphanumeric(ch) || (if alphabet.Standard? then ch == '+' || ch == '/' else ch == '-' || ch == '_')
  }

  lemma SymbolsInAlphabet(alphabet: Alphabet)
    ensures forall v: nat :: v < 64 ==> InAlphabet(alphabet, Symbol(alphabet, v))
  {}

  lemma {:induction false} TextOf(alphabet: Alphabet, b: bytes)
    ensures forall i :: 0 <= i < |Symbols(alphabet, b)| ==> InAlphabet(alphabet, Symbols(alphabet, b)[i])
    ensures |Symbols(alphabet, b)| == |b| / 3 * 4 + (if |b| % 3 == 0 then 0 else |b| % 3 + 1)
  {
    hide Symbol, InAlphabet, First, Second, Third, Fourth;
    SymbolsInAlphabet(alphabet);
    if |b| >= 3 {
      TextOf(alphabet, b[3..]);
    }
  }

  /** Cookie text is URL-safe: letters, digits, '-' and '_', and nothing else. */
  lemma B64uText(b: bytes)
    ensures forall i :: 0 <= i < |B64u(b)| ==> Alphanumeric(B64u(b)[i]) || B64u(b)[i] == '-' || B64u(b)[i] == '_'
    ensures |B64u(b)| == |b| / 3 * 4 + (if |b| % 3 == 0 then 0 else |b| % 3 + 1)
  {
    hide Symbols, RStrip, Alphanumeric;
    TextOf(UrlSafe, b);
    SymbolsPlain(UrlSafe, b);
    StripPadding(Symbols(UrlSafe, b), |b|);
  }

  /** The vectors of section 10 of RFC 4648, and one for each of the four extra symbols. */
  lemma Vectors()
    ensures Encode(Standard, [102]) == "Zg==" && Encode(Standard, [102, 111]) == "Zm8="
    ensures Encode(Standard, [102, 111, 111]) == "Zm9v" && Encode(Standard, [102, 111, 111, 98]) == "Zm9vYg=="
    ensures Encode(Standard, [251, 255]) == "+/8=" && B64u([251, 255]) == "-_8"
  {
    assert [102 as byte, 111, 111, 98][3..] == [98];
    assert RStrip("-_8=", '=') == "-_8" by {
      assert "-_8="[..3] == "-_8";
    }
  }

  /** The decoder skips characters outside its alphabet wherever they stand. */
  lemma {:induction false} SkipsForeign(alphabet: Alphabet, front: string, ch: char, rest: string, quad: nat,
                                        left: nat, pads: nat)
    requires quad < 4 && left < 64 && (quad == 2 ==> left < 16) && (quad == 3 ==> left < 4)
    requires Value(alphabet, ch).None? && ch != '='
    ensures DecodeFrom(alphabet, front + [ch] + rest, quad, left, pads)
         == DecodeFrom(alphabet, front + rest, quad, left, pads)
    decreases |front|
  {
    hide Value;
    var s, t := front + [ch] + rest, front + rest;
    if front == [] {
      assert s[1..] == rest && t == rest;
    } else {
      var f := front[1..];
      assert s[1..] == f + [ch] + rest && t[1..] == f + rest && s[0] == t[0] == front[0];
      if front[0] == '=' {
        SkipsForeign(alphabet, f, ch, rest, quad, left, if quad >= 2 then pads + 1 else pads);
      } else if Value(alphabet, front[0]).None? {
        SkipsForeign(alphabet, f, ch, rest, quad, left, pads);
      } else {
        var v := Value(alphabet, front[0]).value;
        if quad == 0 {
          SkipsForeign(alphabet, f, ch, rest, 1, v, 0);
        } else if quad == 1 {
          SkipsForeign(alphabet, f, ch, rest, 2, v % 16, 0);
        } else if quad == 2 {
          SkipsForeign(alphabet, f, ch, rest, 3, v % 4, 0);
        } else {
          SkipsForeign(alphabet, f, ch, rest, 0, 0, 0);
        }
      }
    }
  }
}
