/**
  Splitting a secret into n shares of which any k reconstruct it, and putting the
  shares together again.
 */
module Shamir {
  import opened Bytes
  import opened Gf256
  import opened GfTables
  import opened Polynomials
  import opened Wrappers

  datatype ShareError =
    | BadThreshold          // not 2 <= k <= n <= 255
    | EmptySecret
    | TooFewShares
    | EmptyShare            // no x-coordinate to read
    | DuplicateCoordinates
    | InconsistentLengths

  // -------------------------------------------------------- specification ----

  /** One row of k - 1 random coefficients for every byte of the secret. */
  ghost predicate RandomRows(random: seq<bytes>, length: nat, k: nat) {
    |random| == length && forall pos :: 0 <= pos < length ==> |random[pos]| + 1 == k
  }

  /** The share at x: the coordinate, then the value at x of every byte's polynomial. */
  function Share(secret: bytes, random: seq<bytes>, x: byte): (s: bytes)
    requires |random| == |secret|
    ensures |s| == |secret| + 1 && s[0] == x
  {
    [x] + seq(|secret|, pos requires 0 <= pos < |secret| => Eval([secret[pos]] + random[pos], x))
  }

  /** The shares at the coordinates 1 to n. */
  function Shares(secret: bytes, random: seq<bytes>, n: nat): (s: seq<bytes>)
    requires |random| == |secret| && n <= 255
    ensures |s| == n && forall i :: 0 <= i < n ==> |s[i]| == |secret| + 1 && s[i][0] as int == i + 1
  {
    seq(n, i requires 0 <= i < n => Share(secret, random, (i + 1) as byte))
  }

  /** The bytes at one position of every share. */
  function Column(shares: seq<bytes>, pos: nat): (c: bytes)
    requires forall s :: s in shares ==> pos < |s|
    ensures |c| == |shares|
  {
    seq(|shares|, i requires 0 <= i < |shares| => shares[i][pos])
  }

  /** Shares that pass every check: at least two, one length, distinct coordinates. */
  ghost predicate Combinable(shares: seq<bytes>) {
    && |shares| >= 2
    && (forall s :: s in shares ==> |s| == |shares[0]| > 0)
    && Distinct(Column(shares, 0))
  }

  /** What combining arbitrary shares yields. */
  ghost function Combine(shares: seq<bytes>): Result<bytes, ShareError> {
    if |shares| < 2 then Err(TooFewShares)
    else if [] in shares then Err(EmptyShare)
    else if !Distinct(Column(shares, 0)) then Err(DuplicateCoordinates)
    else if exists s :: s in shares && |s| != |shares[0]| then Err(InconsistentLengths)
    else Ok(seq(|shares[0]| - 1, pos requires 0 <= pos < |shares[0]| - 1 =>
                Lagrange(Column(shares, 0), Column(shares, pos + 1), 0, |shares|)))
  }

  /** Two shares have the same first byte. */
  ghost predicate Repeats(shares: seq<bytes>)
    requires [] !in shares
  {
    exists i, j :: 0 <= i < j < |shares| && shares[i][0] == shares[j][0]
  }

  /** At least two shares, none empty, all of one length, no first byte twice. */
  ghost predicate WellFormed(shares: seq<bytes>) {
    |shares| >= 2 && [] !in shares && !Repeats(shares) && forall s :: s in shares ==> |s| == |shares[0]|
  }

  /** Which lists of shares are refused, and as what. */
  lemma Refusals(shares: seq<bytes>)
    ensures Combine(shares).Ok? <==> WellFormed(shares)
    ensures Combine(shares).Ok? ==> |Combine(shares).value| == |shares[0]| - 1
    ensures Combine(shares) == Err(TooFewShares) <==> |shares| < 2
    ensures Combine(shares) == Err(EmptyShare) <==> |shares| >= 2 && [] in shares
    ensures Combine(shares) == Err(DuplicateCoordinates) <==> |shares| >= 2 && [] !in shares && Repeats(shares)
  {
    hide Lagrange;
    if [] !in shares {
      assert forall i :: 0 <= i < |shares| ==> shares[i] in shares;
      assert forall i :: 0 <= i < |shares| ==> Column(shares, 0)[i] == shares[i][0];
    }
  }

  // ----------------------------------------------------------- operations ----

  /** Horner's method, from the highest coefficient down. */
  method EvalPoly(t: Tables, coeffs: bytes, x: byte) returns (y: byte)
    requires t.Valid()
    ensures y == Eval(coeffs, x)
  {
    hide Xor, Mul;
    y := 0;
    for i := |coeffs| downto 0
      invariant y == Eval(coeffs[i..], x)
    {
      MulComm(y, x);
      XorComm(Mul(x, y), coeffs[i]);
      assert coeffs[i..][1..] == coeffs[i + 1..];
      y := Xor(GfMul(t, y, x), coeffs[i]);
    }
  }

  /** Every share, longer by the value at its coordinate. */
  function Extended(shares: seq<bytes>, coeffs: bytes): (longer: seq<bytes>)
    requires forall i :: 0 <= i < |shares| ==> shares[i] != []
    ensures |longer| == |shares|
  {
    seq(|shares|, i requires 0 <= i < |shares| => shares[i] + [Eval(coeffs, shares[i][0])])
  }

  /** The inner loop of splitting. */
  method AppendValues(t: Tables, shares: seq<bytes>, coeffs: bytes) returns (longer: seq<bytes>)
    requires t.Valid() && forall i :: 0 <= i < |shares| ==> shares[i] != []
    ensures longer == Extended(shares, coeffs)
  {
    hide Eval;
    longer := shares;
    for i := 0 to |shares|
      invariant |longer| == |shares|
      invariant forall j :: 0 <= j < i ==> longer[j] == Extended(shares, coeffs)[j]
      invariant forall j :: i <= j < |shares| ==> longer[j] == shares[j]
    {
      var y := EvalPoly(t, coeffs, longer[i][0]);
      longer := longer[i := longer[i] + [y]];
    }
  }

  method SplitSecret(t: Tables, secret: bytes, n: int, k: int, random: seq<bytes>)
    returns (r: Result<seq<bytes>, ShareError>)
    requires t.Valid()
    requires 2 <= k <= n <= 255 ==> RandomRows(random, |secret|, k)
    ensures !(2 <= k <= n <= 255) ==> r == Err(BadThreshold)
    ensures 2 <= k <= n <= 255 && secret == [] ==> r == Err(EmptySecret)
    ensures 2 <= k <= n <= 255 && secret != [] ==> r == Ok(Shares(secret, random, n))
  {
    if !(2 <= k <= n <= 255) {
      return Err(BadThreshold);
    }
    if secret == [] {
      return Err(EmptySecret);
    }
    var shares: seq<bytes> := seq(n, i requires 0 <= i < n => [(i + 1) as byte]);
    assert shares == Shares([], [], n) by {
      assert forall i :: 0 <= i < n ==> shares[i] == Share([], [], (i + 1) as byte);
    }
    hide Share, Shares, Extended;
    for pos := 0 to |secret|
      invariant shares == Shares(secret[..pos], random[..pos], n)
    {
      var coeffs := [secret[pos]] + random[pos];
      SharesExtend(secret, random, n, pos);
      shares := AppendValues(t, shares, coeffs);
    }
    assert secret[..|secret|] == secret && random[..|secret|] == random;
    r := Ok(shares);
  }

  lemma SharesExtend(secret: bytes, random: seq<bytes>, n: nat, pos: nat)
    requires |random| == |secret| && pos < |secret| && n <= 255
    ensures forall s :: s in Shares(secret[..pos], random[..pos], n) ==> s != []
    ensures Extended(Shares(secret[..pos], random[..pos], n), [secret[pos]] + random[pos])
         == Shares(secret[..pos + 1], random[..pos + 1], n)
  {
    hide Eval;
    forall i | 0 <= i < n
      ensures Extended(Shares(secret[..pos], random[..pos], n), [secret[pos]] + random[pos])[i]
           == Shares(secret[..pos + 1], random[..pos + 1], n)[i]
    {
      ShareExtends(secret, random, (i + 1) as byte, pos);
    }
  }

  lemma ShareExtends(secret: bytes, random: seq<bytes>, x: byte, pos: nat)
    requires |random| == |secret| && pos < |secret|
    ensures Share(secret[..pos + 1], random[..pos + 1], x)
         == Share(secret[..pos], random[..pos], x) + [Eval([secret[pos]] + random[pos], x)]
  {
    hide Eval;
  }

  /** The entries of xs before position j, without the i-th. */
  function Others(xs: seq<byte>, i: nat, j: nat): seq<byte>
    requires i < |xs| && j <= |xs|
  {
    if j <= i then xs[..j] else xs[..i] + xs[i + 1..j]
  }

  lemma OthersStep(xs: seq<byte>, i: nat, j: nat)
    requires i < |xs| && j < |xs|
    ensures Others(xs, i, j + 1) == if i == j then Others(xs, i, j) else Others(xs, i, j) + [xs[j]]
  {}

  lemma OthersEnds(xs: seq<byte>, i: nat)
    requires i < |xs|
    ensures Others(xs, i, 0) == [] && Others(xs, i, |xs|) == Without(xs, i)
  {}

  lemma ProductStep(zs: seq<byte>, z: byte, x: byte)
    ensures Product(zs + [z], x) == Mul(Product(zs, x), Xor(x, z))
  {
    hide Xor, Mul;
    assert (zs + [z])[..|zs|] == zs;
  }

  /** The quotient num / den of the i-th share's products. */
  method InterpolationWeight(t: Tables, xs: seq<byte>, i: nat) returns (w: byte)
    requires t.Valid() && i < |xs| && Distinct(xs)
    ensures w == Weight(xs, i, 0)
  {
    hide Xor, Mul, Product, Others, GfMul, GfDiv, Distinct;
    var num, den := 1, 1;
    OthersEnds(xs, i);
    ProductEmpty();
    for j := 0 to |xs|
      invariant num == Product(Others(xs, i, j), 0)
      invariant den == Product(Others(xs, i, j), xs[i])
    {
      OthersStep(xs, i, j);
      if i == j {
        continue;
      }
      ProductStep(Others(xs, i, j), xs[j], 0);
      ProductStep(Others(xs, i, j), xs[j], xs[i]);
      XorUnit(xs[j]);
      num := GfMul(t, num, xs[j]);
      den := GfMul(t, den, Xor(xs[i], xs[j]));
    }
    WeightDefined(xs, i);
    var q := GfDiv(t, num, den);
    assert q.Ok?;
    w := q.value;
  }

  lemma ProductEmpty()
    ensures forall x :: Product([], x) == 1
  {}

  method CombineShares(t: Tables, shares: seq<bytes>) returns (r: Result<bytes, ShareError>)
    requires t.Valid()
    ensures r == Combine(shares)
    ensures r.Ok? <==> WellFormed(shares)
    ensures r.Ok? ==> |r.value| == |shares[0]| - 1
    ensures r == Err(TooFewShares) <==> |shares| < 2
    ensures r == Err(EmptyShare) <==> |shares| >= 2 && [] in shares
    ensures r == Err(DuplicateCoordinates) <==> |shares| >= 2 && [] !in shares && Repeats(shares)
  {
    Refusals(shares);
    hide WellFormed, Repeats;
    hide Xor, Mul, Weight;
    if |shares| < 2 {
      return Err(TooFewShares);
    }
    if [] in shares {
      return Err(EmptyShare);
    }
    var xs := Column(shares, 0);
    DistinctCount(xs);
    if |set x | x in xs| != |xs| {
      return Err(DuplicateCoordinates);
    }
    var length := |shares[0]| - 1;
    if exists s | s in shares :: |s| - 1 != length {
      return Err(InconsistentLengths);
    }
    var out := [];
    for pos := 0 to length
      invariant |out| == pos
      invariant forall p :: 0 <= p < pos ==> out[p] == Lagrange(xs, Column(shares, p + 1), 0, |shares|)
    {
      var ys := Column(shares, 1 + pos);
      var secretByte := 0;
      for i := 0 to |shares|
        invariant secretByte == Lagrange(xs, ys, 0, i)
      {
        var w := InterpolationWeight(t, xs, i);
        secretByte := Xor(secretByte, GfMul(t, ys[i], w));
      }
      out := out + [secretByte];
    }
    assert Combine(shares).Ok? && out == Combine(shares).value;
    r := Ok(out);
  }

  // ----------------------------------------------------------- properties ----

  /** Combining combinable shares evaluates at 0 the polynomials behind them. */
  lemma CombineCorrect(shares: seq<bytes>, polys: seq<Poly>)
    requires Combinable(shares) && |polys| == |shares[0]| - 1
    requires forall pos :: 0 <= pos < |polys| ==> 0 < |polys[pos]| <= |shares|
    requires forall pos :: 0 <= pos < |polys| ==> Through(polys[pos], Column(shares, 0), Column(shares, pos + 1))
    ensures Combine(shares) == Ok(seq(|polys|, pos requires 0 <= pos < |polys| => polys[pos][0]))
  {
    hide Eval, Lagrange;
    var out := seq(|polys|, pos requires 0 <= pos < |polys| => polys[pos][0]);
    forall pos | 0 <= pos < |polys|
      ensures Lagrange(Column(shares, 0), Column(shares, pos + 1), 0, |shares|) == polys[pos][0]
    {
      LagrangeCorrect(polys[pos], Column(shares, 0), Column(shares, pos + 1), 0);
      EvalAtZero(polys[pos]);
    }
    assert shares[0] in shares;
    assert Combine(shares).Ok? && Combine(shares).value == out;
  }

  /** The chosen shares, in the chosen order. */
  function Chosen(shares: seq<bytes>, picks: seq<nat>): (c: seq<bytes>)
    requires forall i :: 0 <= i < |picks| ==> picks[i] < |shares|
    ensures |c| == |picks|
  {
    seq(|picks|, i requires 0 <= i < |picks| => shares[picks[i]])
  }

  ghost predicate ValidPicks(picks: seq<nat>, n: nat) {
    && (forall i :: 0 <= i < |picks| ==> picks[i] < n)
    && (forall i, j :: 0 <= i < j < |picks| ==> picks[i] != picks[j])
  }

  lemma ChosenThrough(secret: bytes, n: nat, random: seq<bytes>, picks: seq<nat>, pos: nat)
    requires n <= 255 && |random| == |secret| && ValidPicks(picks, n) && pos < |secret|
    ensures var chosen := Chosen(Shares(secret, random, n), picks);
            Through([secret[pos]] + random[pos], Column(chosen, 0), Column(chosen, pos + 1))
  {
    hide Eval;
    var chosen := Chosen(Shares(secret, random, n), picks);
    forall i | 0 <= i < |chosen|
      ensures Column(chosen, pos + 1)[i] == Eval([secret[pos]] + random[pos], Column(chosen, 0)[i])
    {
      assert chosen[i] == Share(secret, random, (picks[i] + 1) as byte);
    }
  }

  /** Any k or more shares of a secret, in any order, give the secret back. */
  lemma AnyKSharesReconstruct(secret: bytes, n: nat, k: nat, random: seq<bytes>, picks: seq<nat>)
    requires 2 <= k <= n <= 255 && RandomRows(random, |secret|, k)
    requires |picks| >= k && ValidPicks(picks, n)
    ensures Combine(Chosen(Shares(secret, random, n), picks)) == Ok(secret)
  {
    hide Eval, Through, Combine;
    var chosen := Chosen(Shares(secret, random, n), picks);
    var polys: seq<Poly> := seq(|secret|, pos requires 0 <= pos < |secret| => [secret[pos]] + random[pos]);
    forall pos | 0 <= pos < |polys|
      ensures Through(polys[pos], Column(chosen, 0), Column(chosen, pos + 1))
    {
      ChosenThrough(secret, n, random, picks, pos);
    }
    CombineCorrect(chosen, polys);
    assert secret == seq(|polys|, pos requires 0 <= pos < |polys| => polys[pos][0]);
  }

  /** The row of coefficients explains this byte at one position of the shares seen. */
  ghost predicate Explains(row: bytes, b: byte, shares: seq<bytes>, pos: nat)
    requires forall s :: s in shares ==> pos + 1 < |s|
  {
    |row| == |shares| && Through([b] + row, Column(shares, 0), Column(shares, pos + 1))
  }

  lemma ThroughZero(candidate: byte, row: bytes, xs: bytes, ys: bytes)
    requires |xs| == |ys|
    ensures Through([candidate] + row, xs, ys) <==> Through([candidate] + row, [0] + xs, [candidate] + ys)
  {
    hide Eval;
    var p := [candidate] + row;
    EvalAtZero(p);
    if Through(p, [0] + xs, [candidate] + ys) {
      forall i | 0 <= i < |xs|
        ensures Eval(p, xs[i]) == ys[i]
      {
        assert Eval(p, ([0] + xs)[i + 1]) == ([candidate] + ys)[i + 1];
      }
    }
  }

  /**
    Any k - 1 values of a byte's polynomial are consistent with every candidate
    for that byte, each through exactly one row of coefficients.
   */
  lemma EveryByteIsConsistent(xs: bytes, ys: bytes, candidate: byte) returns (row: bytes)
    requires |xs| == |ys| && Distinct(xs) && 0 !in xs
    ensures |row| == |xs| && Through([candidate] + row, xs, ys)
    ensures forall other: bytes :: |other| == |xs| && Through([candidate] + other, xs, ys) ==> other == row
  {
    hide Eval, Lagrange, Through;
    var xs0, ys0 := [0] + xs, [candidate] + ys;
    var p := InterpolationExists(xs0, ys0);
    row := p[1..];
    ThroughStart(p, xs0, ys0);
    assert p == [candidate] + row;
    ThroughZero(candidate, row, xs, ys);
    forall other: bytes | |other| == |xs| && Through([candidate] + other, xs, ys)
      ensures other == row
    {
      ThroughZero(candidate, other, xs, ys);
      assert ([candidate] + other)[1..] == other;
    }
  }

  lemma ThroughStart(p: Poly, xs: bytes, ys: bytes)
    requires |xs| == |ys| && p != [] && xs != [] && xs[0] == 0 && Through(p, xs, ys)
    ensures p[0] == ys[0]
  {
    hide Eval;
    EvalAtZero(p);
    assert Eval(p, xs[0]) == ys[0];
  }

  /** These coefficients turn the secret into shares of which the picked ones are those seen. */
  ghost predicate Produces(rows: seq<bytes>, secret: bytes, n: nat, picks: seq<nat>, seen: seq<bytes>)
    requires n <= 255 && ValidPicks(picks, n)
  {
    RandomRows(rows, |secret|, |picks| + 1) && Chosen(Shares(secret, rows, n), picks) == seen
  }

  /** Shares agree with given ones exactly when every byte's row explains them. */
  lemma SameShares(secret: bytes, n: nat, rows: seq<bytes>, picks: seq<nat>, seen: seq<bytes>)
    requires n <= 255 && ValidPicks(picks, n) && RandomRows(rows, |secret|, |picks| + 1) && |seen| == |picks|
    requires forall s :: s in seen ==> |s| == |secret| + 1
    requires forall i :: 0 <= i < |picks| ==> seen[i][0] == (picks[i] + 1) as byte
    ensures Chosen(Shares(secret, rows, n), picks) == seen <==>
            forall pos :: 0 <= pos < |secret| ==> Explains(rows[pos], secret[pos], seen, pos)
  {
    hide Eval;
    var mine := Chosen(Shares(secret, rows, n), picks);
    var xs := Column(seen, 0);
    if mine == seen {
      forall pos | 0 <= pos < |secret|
        ensures Explains(rows[pos], secret[pos], seen, pos)
      {
        assert forall i :: 0 <= i < |xs| ==> Column(seen, pos + 1)[i] == mine[i][pos + 1];
      }
    }
    if forall pos :: 0 <= pos < |secret| ==> Explains(rows[pos], secret[pos], seen, pos) {
      forall i | 0 <= i < |picks|
        ensures mine[i] == seen[i]
      {
        ShareExplained(secret, rows, seen, i);
      }
    }
  }

  lemma ShareExplained(secret: bytes, rows: seq<bytes>, seen: seq<bytes>, i: nat)
    requires |rows| == |secret| && i < |seen|
    requires forall s :: s in seen ==> |s| == |secret| + 1
    requires forall pos :: 0 <= pos < |secret| ==> Explains(rows[pos], secret[pos], seen, pos)
    ensures Share(secret, rows, seen[i][0]) == seen[i]
  {
    hide Eval;
    var xs := Column(seen, 0);
    var share := Share(secret, rows, seen[i][0]);
    forall q | 1 <= q <= |secret|
      ensures share[q] == seen[i][q]
    {
      var pos := q - 1;
      assert Explains(rows[pos], secret[pos], seen, pos);
      assert Eval([secret[pos]] + rows[pos], xs[i]) == Column(seen, pos + 1)[i];
    }
  }

  lemma ExplainingRows(secret: bytes, seen: seq<bytes>) returns (rows: seq<bytes>)
    requires forall s :: s in seen ==> |s| == |secret| + 1
    requires Distinct(Column(seen, 0)) && 0 !in Column(seen, 0)
    ensures |rows| == |secret|
    ensures forall p :: 0 <= p < |secret| ==> Explains(rows[p], secret[p], seen, p)
    ensures forall p, row :: 0 <= p < |secret| && Explains(row, secret[p], seen, p) ==> row == rows[p]
  {
    hide Eval, Through;
    rows := [];
    for pos := 0 to |secret|
      invariant |rows| == pos
      invariant forall p :: 0 <= p < pos ==> Explains(rows[p], secret[p], seen, p)
      invariant forall p, row :: 0 <= p < pos && Explains(row, secret[p], seen, p) ==> row == rows[p]
    {
      var row := EveryByteIsConsistent(Column(seen, 0), Column(seen, pos + 1), secret[pos]);
      assert Explains(row, secret[pos], seen, pos);
      rows := rows + [row];
    }
  }

  /**
    k - 1 shares reveal nothing: for every other secret of the same length there is
    exactly one choice of random coefficients that produces the very same shares.
   */
  lemma FewerSharesRevealNothing(secret: bytes, n: nat, k: nat, random: seq<bytes>, picks: seq<nat>, other: bytes)
    returns (rows: seq<bytes>)
    requires 2 <= k <= n <= 255 && RandomRows(random, |secret|, k)
    requires |picks| == k - 1 && ValidPicks(picks, n) && |other| == |secret|
    ensures Produces(rows, other, n, picks, Chosen(Shares(secret, random, n), picks))
    ensures forall rows' :: Produces(rows', other, n, picks, Chosen(Shares(secret, random, n), picks)) ==> rows' == rows
  {
    hide Eval, Through;
    var seen := Chosen(Shares(secret, random, n), picks);
    rows := ExplainingRows(other, seen);
    assert RandomRows(rows, |other|, k) by {
      assert forall p :: 0 <= p < |other| ==> Explains(rows[p], other[p], seen, p);
    }
    hide Explains;
    SameShares(other, n, rows, picks, seen);
    forall rows' | Produces(rows', other, n, picks, seen)
      ensures rows' == rows
    {
      SameShares(other, n, rows', picks, seen);
    }
  }
}
