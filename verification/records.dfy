/** The move log: `Piece.toString`, the two `SaveGame` writers and the replay reader
    (`ReplayGames.processMove` / `parsePiece`). */
module Records {
  import opened Wrappers
  import opened Hex
  import opened Pieces
  import opened Boards
  import opened GameStates
  import opened Decimal

  function ColorPrefix(c: Color): char {
    if c == White then 'W' else 'B'
  }

  /** `Piece.toString`: colour letter, type symbol, instance number. */
  function PieceToken(p: Piece): (t: string)
    ensures |t| >= 3 && t[0] == ColorPrefix(p.color) && t[1] == Symbol(p.kind)
    ensures t[2..] == IntToString(p.instance)
    ensures ',' !in t && forall i :: 0 <= i < |t| ==> t[i] > ' '
  {
    [ColorPrefix(p.color)] + [Symbol(p.kind)] + IntToString(p.instance)
  }

  function ColorOfPrefix(c: char): (r: Option<Color>)
    ensures r.Some? ==> ColorPrefix(r.value) == c
    ensures r.Some? <==> c == 'W' || c == 'B'
  {
    if c == 'W' then Some(White) else if c == 'B' then Some(Black) else None
  }

  function KindOfSymbol(c: char): (r: Option<PieceType>)
    ensures r.Some? ==> Symbol(r.value) == c
    ensures r.Some? <==> c in "SGQAB"
  {
    if c == 'S' then Some(Spider)
    else if c == 'G' then Some(Grasshopper)
    else if c == 'Q' then Some(Queen)
    else if c == 'A' then Some(Ant)
    else if c == 'B' then Some(Beetle)
    else None
  }

  /** `parsePiece`: trim; at least three characters; colour letter and type symbol in either case;
      the rest an `int`. The piece is new: no position, stack level 0. */
  function ParsePiece(token: string): (r: Result<Piece>)
    ensures r.Ok? ==> var t := Trim(token);
              && |t| >= 3
              && ColorPrefix(r.value.color) == UpperCase(t[0])
              && Symbol(r.value.kind) == UpperCase(t[1])
              && ParseInt(t[2..]) == Some(r.value.instance)
              && r.value == NewPiece(r.value.kind, r.value.color, r.value.instance)
    ensures |Trim(token)| < 3 ==> r.Err?
  {
    var t := Trim(token);
    if |t| < 3 then Err("Invalid piece token: " + token)
    else
      var color := ColorOfPrefix(UpperCase(t[0]));
      var kind := KindOfSymbol(UpperCase(t[1]));
      var instance := ParseInt(t[2..]);
      if color.None? then Err("Unknown color prefix: " + [UpperCase(t[0])])
      else if kind.None? then Err("Unknown piece type: " + [UpperCase(t[1])])
      else if instance.None? then Err("For input string: " + t[2..])
      else Ok(NewPiece(kind.value, color.value, instance.value))
  }

  /** Reading a piece back from its `toString` gives a new piece with the same identity. */
  lemma ParsePieceRoundTrip(p: Piece)
    requires IsInt32(p.instance)
    ensures ParsePiece(PieceToken(p)) == Ok(NewPiece(p.kind, p.color, p.instance))
  {
    ParseIntRoundTrip(p.instance);
  }

  /** A move line as `Game.SaveGame` writes it, before the newline: piece, q, r. */
  function RecordLine(p: Piece, c: Coord): (line: string)
    ensures '\n' !in line
  {
    PieceToken(p) + "," + IntToString(c.q) + "," + IntToString(c.r)
  }

  /** `Game.SaveGame`: the text appended to the log, one line per move. */
  function SaveRecord(p: Piece, c: Coord): (text: string)
    ensures |text| >= 1 && text[|text| - 1] == '\n' && '\n' !in text[..|text| - 1]
    ensures text[..|text| - 1] == RecordLine(p, c)
  {
    RecordLine(p, c) + "\n"
  }

  /** `DataCollection.SaveGame`, as written: the instance number is appended a second time after
      `toString`, which already ends with it. */
  function DataCollectionRecord(p: Piece, c: Coord): (text: string)
    ensures |text| >= 1 && text[|text| - 1] == '\n'
  {
    PieceToken(p) + IntToString(p.instance) + "," + IntToString(c.q) + "," + IntToString(c.r) + "\n"
  }

  /** The log after one more move: the writers open the file in append mode. */
  function AppendMove(log: string, p: Piece, c: Coord): (log': string)
    ensures log <= log' && log'[|log|..] == SaveRecord(p, c)
  {
    log + SaveRecord(p, c)
  }

  /** The parsing half of `processMove`: at least three comma-separated fields, a piece token and
      two `int` coordinates (further fields are ignored). */
  function ParseRecord(line: string): (r: Result<(Piece, Coord)>)
    ensures r.Ok? ==> |Split(line)| >= 3 && ParsePiece(Split(line)[0]) == Ok(r.value.0)
                      && ParseInt(Split(line)[1]) == Some(r.value.1.q)
                      && ParseInt(Split(line)[2]) == Some(r.value.1.r)
    ensures |Split(line)| < 3 ==> r.Err?
  {
    var parts := Split(line);
    if |parts| < 3 then Err("Invalid move format: " + line)
    else match ParsePiece(parts[0])
      case Err(e) => Err(e)
      case Ok(piece) =>
        match (ParseInt(parts[1]), ParseInt(parts[2]))
        case (Some(x), Some(y)) => Ok((piece, Coord(x, y)))
        case _ => Err("Invalid coordinate in: " + line)
  }

  /** A line written by `Game.SaveGame` reads back as the same piece identity and cell. */
  lemma RecordRoundTrip(p: Piece, c: Coord)
    requires IsInt32(p.instance) && IsInt32(c.q) && IsInt32(c.r)
    ensures ParseRecord(RecordLine(p, c)) == Ok((NewPiece(p.kind, p.color, p.instance), c))
  {
    SplitJoin3(PieceToken(p), IntToString(c.q), IntToString(c.r));
    ParsePieceRoundTrip(p);
    ParseIntRoundTrip(c.q);
    ParseIntRoundTrip(c.r);
  }

  /** A line written by `DataCollection.SaveGame` for a single-digit instance `i` reads back as
      instance `11 * i`: "WQ1" is logged as "WQ11". */
  lemma DataCollectionRecordMisread(p: Piece, c: Coord)
    requires 1 <= p.instance <= 9 && IsInt32(c.q) && IsInt32(c.r)
    ensures var text := DataCollectionRecord(p, c);
            ParseRecord(text[..|text| - 1]) == Ok((NewPiece(p.kind, p.color, 11 * p.instance), c))
  {
    MisreadFields(p, c);
  }

  /** The three fields of the doubled line, and what each reads as. */
  lemma MisreadFields(p: Piece, c: Coord)
    requires 1 <= p.instance <= 9 && IsInt32(c.q) && IsInt32(c.r)
    ensures var text := DataCollectionRecord(p, c);
            var tok := PieceToken(p) + IntToString(p.instance);
            && Split(text[..|text| - 1]) == [tok, IntToString(c.q), IntToString(c.r)]
            && ParsePiece(tok) == Ok(NewPiece(p.kind, p.color, 11 * p.instance))
            && ParseInt(IntToString(c.q)) == Some(c.q) && ParseInt(IntToString(c.r)) == Some(c.r)
  {
    var text := DataCollectionRecord(p, c);
    var tok := PieceToken(p) + IntToString(p.instance);
    var qs, rs := IntToString(c.q), IntToString(c.r);
    var line := tok + "," + qs + "," + rs;
    assert text[..|text| - 1] == line by {
      assert text == line + "\n";
    }
    DoubledTokenToken(p);
    SplitJoin3(tok, qs, rs);
    DoubledTokenMisread(p);
    ParseIntRoundTrip(c.q);
    ParseIntRoundTrip(c.r);
  }

  /** The doubled token is the colour letter, the type symbol and the digit twice. */
  lemma DoubledTokenToken(p: Piece)
    requires 1 <= p.instance <= 9
    ensures var d := DigitChar(p.instance);
            PieceToken(p) + IntToString(p.instance) == [ColorPrefix(p.color), Symbol(p.kind), d, d]
    ensures ',' !in PieceToken(p) + IntToString(p.instance)
  {
    var d := DigitChar(p.instance);
    assert IntToString(p.instance) == [d];
  }

  /** The doubled token "WQ11" parses as instance eleven times the digit. */
  lemma DoubledTokenMisread(p: Piece)
    requires 1 <= p.instance <= 9
    ensures ParsePiece(PieceToken(p) + IntToString(p.instance)) == Ok(NewPiece(p.kind, p.color, 11 * p.instance))
  {
    DoubledTokenToken(p);
    var d := DigitChar(p.instance);
    var tok := [ColorPrefix(p.color), Symbol(p.kind), d, d];
    assert Trim(tok) == tok;
    assert tok[2..] == [d, d];
    DoubledDigitValue(p.instance);
  }

  lemma DoubledDigitValue(k: int)
    requires 1 <= k <= 9
    ensures ParseInt([DigitChar(k), DigitChar(k)]) == Some(11 * k)
  {
    var d := DigitChar(k);
    assert [d, d][..1] == [d];
    assert [d][..0] == [];
    assert DigitsValue([d]) == k;
    assert DigitsValue([d, d]) == 11 * k;
  }

  /** `removeIf` on the reserve: drop every piece with the same type, colour and instance. */
  function RemoveMatching(xs: seq<Piece>, p: Piece): (ys: seq<Piece>)
    ensures forall x :: x in ys <==> x in xs && !SameIdentity(x, p)
    ensures |ys| <= |xs|
  {
    if xs == [] then []
    else if SameIdentity(xs[0], p) then RemoveMatching(xs[1..], p)
    else [xs[0]] + RemoveMatching(xs[1..], p)
  }

  /** `GameBoard.placeReplayPiece` followed by the reserve clean-up of `processMove`: place the piece,
      set its colour's queen flag if it is a queen, pass the turn, and remove the matching pieces
      from the reserve of the piece's colour (not necessarily the side that was to move). */
  function ReplayPlace(s: GameState, p: Piece, c: Coord): (s': GameState)
    ensures s'.board == PlacePiece(s.board, p, c)
    ensures s'.current == Opponent(s.current) && s'.turnCount == s.turnCount + 1
    ensures QueenPlaced(s', p.color) == (QueenPlaced(s, p.color) || p.kind == Queen)
    ensures QueenPlaced(s', Opponent(p.color)) == QueenPlaced(s, Opponent(p.color))
    ensures Reserve(s', p.color) == RemoveMatching(Reserve(s, p.color), p)
    ensures Reserve(s', Opponent(p.color)) == Reserve(s, Opponent(p.color))
  {
    var placed := s.(board := PlacePiece(s.board, p, c));
    var flagged := if p.kind == Queen then SetQueenPlaced(placed, p.color) else placed;
    var passed := NextPlayer(flagged);
    WithReserve(passed, p.color, RemoveMatching(Reserve(passed, p.color), p))
  }

  /** `processMove`: a malformed line leaves the game unchanged (the source reports the error);
      a well-formed one is replayed. */
  function ProcessMove(s: GameState, line: string): (r: Result<GameState>)
    ensures r.Err? <==> ParseRecord(line).Err?
    ensures r.Ok? ==> r.value.board == PlacePiece(s.board, ParseRecord(line).value.0, ParseRecord(line).value.1)
    ensures r.Ok? ==> r.value.turnCount == s.turnCount + 1
  {
    match ParseRecord(line)
    case Err(e) => Err("Error processing move: " + e)
    case Ok((p, c)) => Ok(ReplayPlace(s, p, c))
  }

  /** Replaying a saved move puts a new piece of the saved identity on the saved cell, on top of the
      stack there, and empties the reserve of every piece with that identity. */
  lemma ReplaySavedMove(s: GameState, p: Piece, c: Coord)
    requires IsInt32(p.instance) && IsInt32(c.q) && IsInt32(c.r)
    ensures ProcessMove(s, RecordLine(p, c)).Ok?
    ensures var s' := ProcessMove(s, RecordLine(p, c)).value;
            && TopPieceAt(s'.board, c) == Some(SetPosition(NewPiece(p.kind, p.color, p.instance), c))
            && (forall x :: x in Reserve(s', p.color) ==> !SameIdentity(x, p))
            && PieceCount(s'.board) == PieceCount(s.board) + 1
  {
    RecordRoundTrip(p, c);
    PlacePieceFacts(s.board, NewPiece(p.kind, p.color, p.instance), c);
  }
}
