/** What an option stores and how a text is parsed into it: scalars are replaced, vectors of
    scalars are split at commas and appended to. */
module OptionValues {
  import opened Outcomes
  import opened OptionSyntax
  import opened IntegerLiterals

  /** The exceptions that parsing throws. */
  datatype Error =
    | OptionNotExists(name: string)
    | MissingArgument(name: string)
    | RequiresArgument(name: string)
    | OptionSyntaxError(token: string)
    | IncorrectType(text: string)

  datatype ScalarKind = Text | Boolean | Integer(ty: IntType) | Character

  datatype Kind = Scalar(of: ScalarKind) | Vector(of: ScalarKind)

  datatype Datum = TextDatum(s: string) | BoolDatum(b: bool) | IntDatum(n: int) | CharDatum(c: char)

  datatype Stored = One(datum: Datum) | Many(items: seq<Datum>)

  /** A default-constructed value. */
  function Initial(kind: Kind): Stored {
    match kind
    case Vector(_) => Many([])
    case Scalar(Text) => One(TextDatum(""))
    case Scalar(Boolean) => One(BoolDatum(false))
    case Scalar(Integer(_)) => One(IntDatum(0))
    case Scalar(Character) => One(CharDatum('\0'))
  }

  /** `(t|T)(rue)?|1` */
  predicate IsTruthy(text: string) {
    text == "t" || text == "T" || text == "true" || text == "True" || text == "1"
  }

  /** `(f|F)(alse)?|0` */
  predicate IsFalsy(text: string) {
    text == "f" || text == "F" || text == "false" || text == "False" || text == "0"
  }

  ghost function ScalarOf(kind: ScalarKind, text: string): Result<Datum, Error> {
    match kind
    case Text => Success(TextDatum(text))
    case Boolean =>
      if IsTruthy(text) then Success(BoolDatum(true))
      else if IsFalsy(text) then Success(BoolDatum(false))
      else Failure(IncorrectType(text))
    case Integer(ty) =>
      (match IntegerValue(text, ty)
       case Some(n) => Success(IntDatum(n))
       case None => Failure(IncorrectType(text)))
    case Character =>
      if |text| == 1 then Success(CharDatum(text[0])) else Failure(IncorrectType(text))
  }

  /** The pieces that repeated `getline` with a comma reads: an empty last piece is not read. */
  function Pieces(text: string): seq<string> {
    if text == "" then []
    else
      var i := IndexOf(text, ',');
      if i == |text| then [text] else [text[..i]] + Pieces(text[i + 1..])
  }

  ghost function ScalarsOf(kind: ScalarKind, pieces: seq<string>): Result<seq<Datum>, Error> {
    if pieces == [] then Success([])
    else
      var first :- ScalarOf(kind, pieces[0]);
      var rest :- ScalarsOf(kind, pieces[1..]);
      Success([first] + rest)
  }

  /** `parse_value(text, store)` */
  ghost function ParseInto(kind: Kind, text: string, store: Stored): Result<Stored, Error> {
    match kind
    case Scalar(of) =>
      var d :- ScalarOf(of, text);
      Success(One(d))
    case Vector(of) =>
      var ds :- ScalarsOf(of, Pieces(text));
      Success(Many((if store.Many? then store.items else []) + ds))
  }

  method ParseScalar(kind: ScalarKind, text: string) returns (r: Result<Datum, Error>)
    ensures r == ScalarOf(kind, text)
  {
    match kind
    case Text => return Success(TextDatum(text));
    case Boolean =>
      if IsTruthy(text) {
        return Success(BoolDatum(true));
      }
      if IsFalsy(text) {
        return Success(BoolDatum(false));
      }
      return Failure(IncorrectType(text));
    case Integer(ty) =>
      var n := ParseInteger(text, ty);
      return if n.Some? then Success(IntDatum(n.value)) else Failure(IncorrectType(text));
    case Character =>
      return if |text| == 1 then Success(CharDatum(text[0])) else Failure(IncorrectType(text));
  }

  lemma NoPieces()
    ensures Pieces("") == []
  {}

  lemma FirstPiece(text: string)
    requires text != ""
    ensures var i := IndexOf(text, ',');
            Pieces(text) == [text[..i]] + Pieces(if i == |text| then "" else text[i + 1..])
  {
    if IndexOf(text, ',') == |text| {
      assert text[..|text|] == text && Pieces("") == [];
    }
  }

  /** The `getline` loop over a vector's text, which appends each piece as it is parsed. */
  method ParseVector(kind: ScalarKind, text: string, items: seq<Datum>)
    returns (r: Result<seq<Datum>, Error>)
    ensures ScalarsOf(kind, Pieces(text)).Success? ==>
              r == Success(items + ScalarsOf(kind, Pieces(text)).value)
    ensures ScalarsOf(kind, Pieces(text)).Failure? ==>
              r == Failure(ScalarsOf(kind, Pieces(text)).error)
  {
    hide ScalarOf, Pieces;
    var input, value := text, items;
    while input != ""
      invariant ScalarsOf(kind, Pieces(text)).Success? <==> ScalarsOf(kind, Pieces(input)).Success?
      invariant ScalarsOf(kind, Pieces(text)).Success? ==>
                  items + ScalarsOf(kind, Pieces(text)).value
                  == value + ScalarsOf(kind, Pieces(input)).value
      invariant ScalarsOf(kind, Pieces(text)).Failure? ==>
                  ScalarsOf(kind, Pieces(input)).error == ScalarsOf(kind, Pieces(text)).error
      decreases |input|
    {
      var i := IndexOf(input, ',');
      var token, rest := input[..i], if i == |input| then "" else input[i + 1..];
      FirstPiece(input);
      var v := ParseScalar(kind, token);
      if v.Failure? {
        return Failure(v.error);
      }
      value := value + [v.value];
      input := rest;
    }
    NoPieces();
    assert value + [] == value;
    return Success(value);
  }

  method ParseValue(kind: Kind, text: string, store: Stored) returns (r: Result<Stored, Error>)
    ensures r == ParseInto(kind, text, store)
  {
    match kind
    case Scalar(of) =>
      var d := ParseScalar(of, text);
      return if d.Success? then Success(One(d.value)) else Failure(d.error);
    case Vector(of) =>
      var ds := ParseVector(of, text, if store.Many? then store.items else []);
      return if ds.Success? then Success(Many(ds.value)) else Failure(ds.error);
  }

  // ---------- rendering a vector back ----------

  /** Pieces, each followed by a comma. */
  function JoinPieces(pieces: seq<string>): string {
    if pieces == [] then "" else pieces[0] + [','] + JoinPieces(pieces[1..])
  }

  /** Comma-terminated pieces without commas are read back as they were, empty ones included. */
  lemma {:induction false} PiecesRoundTrip(pieces: seq<string>)
    requires forall p | p in pieces :: forall i | 0 <= i < |p| :: p[i] != ','
    ensures Pieces(JoinPieces(pieces)) == pieces
  {
    if pieces != [] {
      var first, rest := pieces[0], JoinPieces(pieces[1..]);
      var text := first + [','] + rest;
      IndexOfFirst(first, ',', rest);
      FirstPiece(text);
      assert text[..|first|] == first && text[|first| + 1..] == rest;
      PiecesRoundTrip(pieces[1..]);
      assert rest == "" ==> Pieces(rest) == [];
    }
  }

  /** Pieces with a comma between any two. */
  function WithCommas(pieces: seq<string>): string
    requires pieces != []
  {
    if |pieces| == 1 then pieces[0] else pieces[0] + [','] + WithCommas(pieces[1..])
  }

  predicate NoComma(s: string) {
    forall i | 0 <= i < |s| :: s[i] != ','
  }

  lemma CommaBehind(first: string, rest: seq<string>)
    ensures WithCommas([first]) == first
    ensures rest != [] ==> WithCommas([first] + rest) == first + [','] + WithCommas(rest)
  {
    assert ([first] + rest)[1..] == rest;
  }

  lemma PiecesOfOne(text: string)
    requires text != "" && NoComma(text)
    ensures Pieces(text) == [text]
  {
    IndexOfAbsent(text, ',');
  }

  lemma PiecesBehind(first: string, rest: string)
    requires NoComma(first)
    ensures Pieces(first + [','] + rest) == [first] + Pieces(rest)
  {
    var text := first + [','] + rest;
    IndexOfFirst(first, ',', rest);
    assert text[..|first|] == first && text[|first| + 1..] == rest;
  }

  /** A list as it is usually written is read back as it was, unless its last piece is empty. */
  lemma {:induction false} ListRoundTrip(pieces: seq<string>)
    requires pieces != [] && pieces[|pieces| - 1] != "" && forall p | p in pieces :: NoComma(p)
    ensures Pieces(WithCommas(pieces)) == pieces
    decreases |pieces|
  {
    hide Pieces, WithCommas, NoComma;
    var first, rest := pieces[0], pieces[1..];
    assert NoComma(first) && pieces == [first] + rest;
    CommaBehind(first, rest);
    if rest == [] {
      assert pieces == [first];
      PiecesOfOne(first);
    } else {
      ListRoundTrip(rest);
      PiecesBehind(first, WithCommas(rest));
    }
  }

  /** Nothing of a text is lost or moved when it is split: the pieces have no commas, and putting the
      commas back gives the text, but for a last comma. */
  lemma {:induction false} PiecesMakeText(text: string)
    ensures forall p | p in Pieces(text) :: NoComma(p)
    ensures text == "" <==> Pieces(text) == []
    ensures text != "" ==>
              text == WithCommas(Pieces(text)) || text == WithCommas(Pieces(text)) + [',']
    decreases |text|
  {
    if text == "" {
      NoPieces();
    } else {
      var i := IndexOf(text, ',');
      var first := text[..i];
      hide Pieces, WithCommas, IndexOf;
      if i == |text| {
        assert first == text;
        PiecesOfOne(text);
        CommaBehind(text, []);
      } else {
        var rest := text[i + 1..];
        assert text == first + [','] + rest;
        PiecesBehind(first, rest);
        PiecesMakeText(rest);
        CommaBehind(first, Pieces(rest));
        if rest == "" {
          NoPieces();
          assert [first] + [] == [first];
        } else {
          CommaLast(first, WithCommas(Pieces(rest)));
        }
      }
    }
  }

  lemma CommaLast(first: string, rest: string)
    ensures first + [','] + (rest + [',']) == first + [','] + rest + [',']
  {}

  // ---------- what the parsed values are ----------

  /** Scalars, by the texts that denote them: `(t|T)(rue)?|1` and `(f|F)(alse)?|0` for a boolean. */
  lemma ScalarIsRead(kind: ScalarKind, text: string)
    ensures kind.Text? ==> ScalarOf(kind, text) == Success(TextDatum(text))
    ensures kind.Boolean? ==>
              && (ScalarOf(kind, text) == Success(BoolDatum(true)) <==>
                    text in ["t", "T", "t" + "rue", "T" + "rue", "1"])
              && (ScalarOf(kind, text) == Success(BoolDatum(false)) <==>
                    text in ["f", "F", "f" + "alse", "F" + "alse", "0"])
    ensures kind.Integer? ==>
              forall n :: ScalarOf(kind, text) == Success(IntDatum(n)) <==> IntegerValue(text, kind.ty) == Some(n)
    ensures kind.Character? ==> forall c :: ScalarOf(kind, text) == Success(CharDatum(c)) <==> text == [c]
    ensures ScalarOf(kind, text).Failure? ==> ScalarOf(kind, text).error == IncorrectType(text)
  {
    assert "t" + "rue" == "true" && "T" + "rue" == "True" && "f" + "alse" == "false" && "F" + "alse" == "False";
  }

  /** A vector has the values of its pieces, each at the place of its piece; the first piece that has no
      value is the error. */
  lemma {:induction false} VectorIsRead(kind: ScalarKind, pieces: seq<string>)
    ensures var r := ScalarsOf(kind, pieces);
            && (r.Success? ==>
                  && |r.value| == |pieces|
                  && forall i | 0 <= i < |pieces| :: ScalarOf(kind, pieces[i]) == Success(r.value[i]))
            && (r.Failure? ==>
                  exists i | 0 <= i < |pieces| ::
                    && ScalarOf(kind, pieces[i]) == Failure(r.error)
                    && forall k | 0 <= k < i :: ScalarOf(kind, pieces[k]).Success?)
  {
    hide ScalarOf;
    if pieces != [] {
      var first, tail := ScalarOf(kind, pieces[0]), pieces[1..];
      VectorIsRead(kind, tail);
      if first.Failure? {
        assert ScalarOf(kind, pieces[0]) == Failure(first.error);
      } else if ScalarsOf(kind, tail).Failure? {
        var e := ScalarsOf(kind, tail).error;
        var i :| 0 <= i < |tail| && ScalarOf(kind, tail[i]) == Failure(e)
                 && forall k | 0 <= k < i :: ScalarOf(kind, tail[k]).Success?;
        forall k | 0 <= k < i + 1 ensures ScalarOf(kind, pieces[k]).Success? {
          assert k > 0 ==> pieces[k] == tail[k - 1];
        }
        assert ScalarOf(kind, pieces[i + 1]) == Failure(e);
      } else {
        var rest := ScalarsOf(kind, tail).value;
        forall i | 0 <= i < |pieces| ensures ScalarOf(kind, pieces[i]) == Success(([first.value] + rest)[i]) {
          assert i > 0 ==> pieces[i] == tail[i - 1];
        }
      }
    }
  }

  lemma {:induction false} ScalarsConcat(kind: ScalarKind, a: seq<string>, b: seq<string>)
    ensures ScalarsOf(kind, a + b).Success? <==> ScalarsOf(kind, a).Success? && ScalarsOf(kind, b).Success?
    ensures ScalarsOf(kind, a + b).Success? ==>
              ScalarsOf(kind, a + b).value == ScalarsOf(kind, a).value + ScalarsOf(kind, b).value
    decreases |a|
  {
    hide ScalarOf;
    if a == [] {
      assert a + b == b;
    } else {
      assert (a + b)[0] == a[0] && (a + b)[1..] == a[1..] + b;
      ScalarsConcat(kind, a[1..], b);
    }
  }
}
