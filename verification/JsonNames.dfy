// What strings decode to in each language, and why they agree on which are well
// formed and which names are equal.
module JsonNames {
  import opened JsonGrammar
  import opened Accounting
  import opened JsonEscapes
  import opened JsonEncodings

  // A string literal of characters outside the surrogate range.
  predicate Characters(ps: seq<Piece>) {
    forall i :: 0 <= i < |ps| && ps[i].Raw? ==> IsScalar(ps[i].unit)
  }

  function JoinPair(high: nat, low: nat): nat
    requires IsHigh(high) && IsLow(low)
  {
    0x10000 + (high - 0xD800) * 1024 + (low - 0xDC00)
  }

  predicate PairAhead(ps: seq<Piece>) {
    |ps| > 1 && HighEscape(ps[0]) && LowEscape(ps[1])
  }

  // json.loads, and Go's decoder on strings scalarEscapes let through: a pair of
  // escapes is one character.
  function CodePoints(ps: seq<Piece>): Text
    requires ValidPieces(ps)
  {
    if ps == [] then []
    else if PairAhead(ps) then [JoinPair(HexValue(ps[0].digits), HexValue(ps[1].digits))] + CodePoints(ps[2..])
    else [DecodePiece(ps[0])] + CodePoints(ps[1..])
  }

  // sdk/python/pitot/wire.py, _scalars on one string.
  predicate AllScalar(s: Text) {
    forall i :: 0 <= i < |s| ==> !IsHigh(s[i]) && !IsLow(s[i])
  }

  lemma PlainPiece(p: Piece)
    requires ValidPiece(p) && (p.Raw? ==> IsScalar(p.unit))
    ensures IsHigh(DecodePiece(p)) <==> HighEscape(p)
    ensures IsLow(DecodePiece(p)) <==> LowEscape(p)
    ensures !HighEscape(p) && !LowEscape(p) ==> IsScalar(DecodePiece(p))
  {
  }

  // Python's check of the decoded string is the pairing of its escapes.
  lemma {:induction false} AllScalarIffPaired(ps: seq<Piece>)
    requires ValidPieces(ps) && Characters(ps)
    ensures AllScalar(CodePoints(ps)) <==> Paired(ps)
    ensures Paired(ps) ==> forall i :: 0 <= i < |CodePoints(ps)| ==> IsScalar(CodePoints(ps)[i])
    decreases |ps|
  {
    hide HexValue, IsScalar, DecodePiece;
    if ps != [] {
      PlainPiece(ps[0]);
      if PairAhead(ps) {
        AllScalarIffPaired(ps[2..]);
        PairJoins(ps[0], ps[1]);
        Prepend(JoinPair(HexValue(ps[0].digits), HexValue(ps[1].digits)), CodePoints(ps[2..]));
      } else {
        AllScalarIffPaired(ps[1..]);
        Prepend(DecodePiece(ps[0]), CodePoints(ps[1..]));
      }
    }
  }

  lemma Prepend(u: nat, s: Text)
    ensures AllScalar([u] + s) <==> !IsHigh(u) && !IsLow(u) && AllScalar(s)
    ensures (forall i :: 0 <= i < |s| ==> IsScalar(s[i])) && IsScalar(u)
        ==> forall i :: 0 <= i < |[u] + s| ==> IsScalar(([u] + s)[i])
  {
    assert ([u] + s)[0] == u;
    assert forall i :: 0 <= i < |s| ==> ([u] + s)[i + 1] == s[i];
  }

  lemma PairJoins(high: Piece, low: Piece)
    requires HighEscape(high) && LowEscape(low)
    ensures var u := JoinPair(HexValue(high.digits), HexValue(low.digits));
            IsScalar(u) && !IsHigh(u) && !IsLow(u) && Units(Utf16, u) == [HexValue(high.digits), HexValue(low.digits)]
  {
  }

  // ----- TypeScript's view: UTF-16 -----

  lemma {:induction false} DecodeJoin(a: seq<Piece>, b: seq<Piece>)
    requires ValidPieces(a) && ValidPieces(b)
    ensures ValidPieces(a + b) && Decode(a + b) == Decode(a) + Decode(b)
    decreases |a|
  {
    hide DecodePiece, ValidPiece;
    if a == [] {
      assert a + b == b;
    } else {
      assert (a + b)[1..] == a[1..] + b;
      DecodeJoin(a[1..], b);
    }
  }

  lemma {:induction false} DecodeRaws(units: Text)
    requires ValidPieces(Raws(units))
    ensures Decode(Raws(units)) == units
    decreases |units|
  {
    if units != [] {
      assert Raws(units)[1..] == Raws(units[1..]);
      DecodeRaws(units[1..]);
    }
  }

  lemma PieceUnits(p: Piece)
    requires ValidPiece(p)
    ensures ValidPieces(RecodePiece(Utf16, p))
    ensures Decode(RecodePiece(Utf16, p)) == if p.Raw? then Units(Utf16, p.unit) else [DecodePiece(p)]
  {
    OnePieceRecoded(Utf16, p);
    if p.Raw? {
      DecodeRaws(Units(Utf16, p.unit));
    } else {
      assert Decode([p][1..]) == [];
    }
  }

  // The UTF-16 string that TypeScript decodes a literal to.
  function Utf16Value(ps: seq<Piece>): Text
    requires ValidPieces(ps)
  {
    PiecesRecoded(Utf16, ps);
    Decode(RecodePieces(Utf16, ps))
  }

  lemma Utf16Unfold(ps: seq<Piece>)
    requires ValidPieces(ps) && ps != []
    ensures Utf16Value(ps)
         == (if ps[0].Raw? then Units(Utf16, ps[0].unit) else [DecodePiece(ps[0])]) + Utf16Value(ps[1..])
  {
    hide RecodePiece, Decode, DecodePiece;
    PieceUnits(ps[0]);
    PiecesRecoded(Utf16, ps[1..]);
    DecodeJoin(RecodePiece(Utf16, ps[0]), RecodePieces(Utf16, ps[1..]));
  }

  // One scalar value in front does not matter to scalarString, one or two units wide.
  lemma ScalarInFront(u: nat, s: Text)
    requires IsScalar(u)
    ensures ScalarString(Units(Utf16, u) + s) == ScalarString(s)
    ensures (Units(Utf16, u) + s) != [] && !IsLow((Units(Utf16, u) + s)[0])
  {
    var t := Units(Utf16, u) + s;
    if u < 0x10000 {
      assert t[1..] == s;
    } else {
      assert t[2..] == s;
    }
  }

  lemma SurrogateInFront(u: nat, s: Text)
    requires IsHigh(u) || IsLow(u)
    ensures ScalarString([u] + s) <==> IsHigh(u) && s != [] && IsLow(s[0]) && ScalarString(s[1..])
  {
    var t := [u] + s;
    assert t[0] == u && t[1..] == s;
    if s != [] {
      assert t[2..] == s[1..];
    }
  }

  // scalarString on the decoded UTF-16 is the pairing of the escapes.
  lemma {:induction false} ScalarStringIffPaired(ps: seq<Piece>)
    requires ValidPieces(ps) && Characters(ps)
    ensures ScalarString(Utf16Value(ps)) <==> Paired(ps)
    ensures Utf16Value(ps) != [] && IsLow(Utf16Value(ps)[0]) <==> ps != [] && LowEscape(ps[0])
    decreases |ps|
  {
    hide ScalarString, Utf16Value, Units, HighEscape, LowEscape, DecodePiece, IsScalar;
    if ps == [] {
      Utf16Empty();
    } else {
      var p, s := ps[0], Utf16Value(ps[1..]);
      Utf16Unfold(ps);
      PlainPiece(p);
      ScalarStringIffPaired(ps[1..]);
      if HighEscape(p) || LowEscape(p) {
        EscapeKinds(p);
        SurrogateInFront(DecodePiece(p), s);
        if PairAhead(ps) {
          Utf16Unfold(ps[1..]);
          EscapeKinds(ps[1]);
          assert ps[1..][1..] == ps[2..];
          assert s[1..] == Utf16Value(ps[2..]);
          ScalarStringIffPaired(ps[2..]);
        }
      } else {
        PieceScalar(p);
        ScalarInFront(DecodePiece(p), s);
      }
    }
  }

  lemma Utf16Empty()
    ensures Utf16Value([]) == [] && ScalarString([])
  {
  }

  lemma PieceScalar(p: Piece)
    requires ValidPiece(p) && (p.Raw? ==> IsScalar(p.unit)) && !HighEscape(p) && !LowEscape(p)
    ensures IsScalar(DecodePiece(p))
    ensures Units(Utf16, DecodePiece(p)) == if p.Raw? then Units(Utf16, p.unit) else [DecodePiece(p)]
  {
  }

  // TypeScript's string is the UTF-16 of Python's.
  lemma {:induction false} SameString(ps: seq<Piece>)
    requires ValidPieces(ps) && Characters(ps) && Paired(ps)
    ensures Utf16Value(ps) == Encode(Utf16, CodePoints(ps))
    decreases |ps|
  {
    hide Utf16Value, Units, HighEscape, LowEscape, DecodePiece, IsScalar;
    if ps == [] {
      Utf16Empty();
    } else {
      PlainPiece(ps[0]);
      Utf16Unfold(ps);
      EscapeKinds(ps[0]);
      if PairAhead(ps) {
        EscapeKinds(ps[1]);
        Utf16Unfold(ps[1..]);
        assert ps[1..][1..] == ps[2..];
        PairJoins(ps[0], ps[1]);
        PairDecodes(ps[0], ps[1]);
        SameString(ps[2..]);
      } else {
        PieceScalar(ps[0]);
        SameString(ps[1..]);
      }
    }
  }

  lemma PairDecodes(high: Piece, low: Piece)
    requires HighEscape(high) && LowEscape(low)
    ensures DecodePiece(high) == HexValue(high.digits) && DecodePiece(low) == HexValue(low.digits)
  {
  }

  predicate Scalars(s: Text) {
    forall i :: 0 <= i < |s| ==> IsScalar(s[i])
  }

  // UTF-16 tells scalar strings apart.
  lemma {:induction false} Utf16Injective(a: Text, b: Text)
    requires Scalars(a) && Scalars(b) && Encode(Utf16, a) == Encode(Utf16, b)
    ensures a == b
    decreases |a| + |b|
  {
    if a == [] || b == [] {
      assert |Encode(Utf16, a)| == 0 && |Encode(Utf16, b)| == 0;
      assert a == [] && b == [];
    } else {
      hide Encode;
      assert Encode(Utf16, a) == Units(Utf16, a[0]) + Encode(Utf16, a[1..]) by { EncodeUnfold(a); }
      assert Encode(Utf16, b) == Units(Utf16, b[0]) + Encode(Utf16, b[1..]) by { EncodeUnfold(b); }
      FirstScalar(a[0], Encode(Utf16, a[1..]), b[0], Encode(Utf16, b[1..]));
      Utf16Injective(a[1..], b[1..]);
      assert a == [a[0]] + a[1..] && b == [b[0]] + b[1..];
    }
  }

  lemma EncodeUnfold(s: Text)
    requires s != []
    ensures Encode(Utf16, s) == Units(Utf16, s[0]) + Encode(Utf16, s[1..])
  {
  }

  lemma FirstScalar(u: nat, s: Text, v: nat, t: Text)
    requires IsScalar(u) && IsScalar(v) && Units(Utf16, u) + s == Units(Utf16, v) + t
    ensures u == v && s == t
  {
    var a, b := Units(Utf16, u) + s, Units(Utf16, v) + t;
    assert a[0] == Units(Utf16, u)[0] && b[0] == Units(Utf16, v)[0];
    if u >= 0x10000 {
      assert a[1] == Units(Utf16, u)[1] && v >= 0x10000 && b[1] == Units(Utf16, v)[1];
      assert s == a[2..] && t == b[2..];
    } else {
      assert s == a[1..] && t == b[1..];
    }
  }

  // Two well-formed names are equal in TypeScript exactly when they are in Python and Go.
  lemma NamesAgree(ps: seq<Piece>, qs: seq<Piece>)
    requires ValidPieces(ps) && Characters(ps) && Paired(ps)
    requires ValidPieces(qs) && Characters(qs) && Paired(qs)
    ensures Utf16Value(ps) == Utf16Value(qs) <==> CodePoints(ps) == CodePoints(qs)
  {
    hide Utf16Value, CodePoints, Encode, Paired, Characters;
    SameString(ps);
    SameString(qs);
    AllScalarIffPaired(ps);
    AllScalarIffPaired(qs);
    if Utf16Value(ps) == Utf16Value(qs) {
      Utf16Injective(CodePoints(ps), CodePoints(qs));
    }
  }
}
