/** The game transcript of src/pgn.rs: the result marker, the Seven Tag
    Roster header of the PGN standard and the movetext body, as text. Moves
    are opaque strings (their `Display` text); the printed output is the
    value `Transcript` returns. */
module Pgn {
  import opened Chess

  /** The outcomes the rules engine's game record can report. */
  datatype GameResult =
    | WhiteCheckmates | WhiteResigns | BlackCheckmates | BlackResigns
    | Stalemate | DrawAccepted | DrawDeclared

  /** The result marker: a win for White or Black only by checkmate; every
      other outcome, and an unfinished game, is written as a draw. */
  function ResultTag(result: Option<GameResult>): (tag: string)
    ensures tag == "1-0" <==> result == Some(WhiteCheckmates)
    ensures tag == "0-1" <==> result == Some(BlackCheckmates)
    ensures tag == "1/2-1/2" <==> result != Some(WhiteCheckmates) && result != Some(BlackCheckmates)
  {
    var r := if result.Some? then result.value else DrawAccepted;
    match r
    case WhiteCheckmates => "1-0"
    case BlackCheckmates => "0-1"
    case _ => "1/2-1/2"
  }

  // ---------------------------------------------------------------------
  // Header

  /** One tag pair, `[Name "value"]`. */
  function TagPair(name: string, value: string): (line: string)
    ensures |line| == |name| + |value| + 5
    ensures line[0] == '[' && line[|line| - 1] == ']'
  {
    "[" + name + " \"" + value + "\"]"
  }

  /** The seven tags the engine writes, in order, with their values. */
  function Roster(tag: string): (pairs: seq<(string, string)>)
    ensures |pairs| == 7
  {
    [("Event", "Engine Self-Play"), ("Site", "?"), ("Date", "2025.04.25"), ("Round", "?"),
     ("White", "Engine"), ("Black", "Engine"), ("Result", tag)]
  }

  /** The given tag pairs, one per line. */
  function TagLines(pairs: seq<(string, string)>): (text: string)
  {
    if pairs == [] then ""
    else TagLines(pairs[..|pairs| - 1]) + TagPair(pairs[|pairs| - 1].0, pairs[|pairs| - 1].1) + "\n"
  }

  /** The header: the roster, one tag per line, then an empty line. */
  function Header(tag: string): (text: string)
  {
    TagLines(Roster(tag)) + "\n"
  }

  /** The header names exactly the Seven Tag Roster, in the standard's
      order, and carries the result marker in its last tag. */
  lemma HeaderIsSevenTagRoster(tag: string)
    ensures |Roster(tag)| == 7
    ensures forall k :: 0 <= k < 7 ==>
      Roster(tag)[k].0 == ["Event", "Site", "Date", "Round", "White", "Black", "Result"][k]
    ensures Roster(tag)[6].1 == tag
    ensures Header(tag) == TagLines(Roster(tag)[..6]) + TagPair("Result", tag) + "\n\n"
  {
    assert Roster(tag)[..7] == Roster(tag);
  }

  // ---------------------------------------------------------------------
  // Move numbers

  /** `format!("{}", n)` for a natural number: its decimal digits. */
  function NatToString(n: nat): (s: string)
    ensures |s| > 0
    ensures forall k :: 0 <= k < |s| ==> '0' <= s[k] <= '9'
    ensures s[0] == '0' ==> n == 0
  {
    if n < 10 then [Digit(n)] else NatToString(n / 10) + [Digit(n % 10)]
  }

  function Digit(d: nat): (c: char)
    requires d < 10
    ensures '0' <= c <= '9'
  {
    ['0', '1', '2', '3', '4', '5', '6', '7', '8', '9'][d]
  }

  /** Reads decimal digits back. */
  function ParseNat(s: string): (n: nat)
    requires forall k :: 0 <= k < |s| ==> '0' <= s[k] <= '9'
  {
    if s == [] then 0 else 10 * ParseNat(s[..|s| - 1]) + (s[|s| - 1] as int - '0' as int)
  }

  /** The move number reads back as the number that was written. */
  lemma {:induction false} NatToStringRoundTrip(n: nat)
    ensures ParseNat(NatToString(n)) == n
  {
    var s := NatToString(n);
    if n >= 10 {
      NatToStringRoundTrip(n / 10);
      assert s[..|s| - 1] == NatToString(n / 10);
    }
  }

  // ---------------------------------------------------------------------
  // Movetext

  /** What the loop appends for the move with index `i`: the move number
      and a dot before White's move, a space before every move, and a
      newline after Black's move. */
  function Entry(i: nat, mv: string): (text: string)
  {
    (if i % 2 == 0 then NatToString(i / 2 + 1) + "." else "")
      + " " + mv
      + (if i % 2 == 1 then "\n" else "")
  }

  /** The text the loop has built after the moves `moves`. */
  function MoveText(moves: seq<string>): (text: string)
  {
    if moves == [] then "" else MoveText(moves[..|moves| - 1]) + Entry(|moves| - 1, moves[|moves| - 1])
  }

  /** The body: the movetext, a newline closing an unfinished pair, then
      the result marker. */
  function Body(moves: seq<string>, tag: string): (body: string)
  {
    MoveText(moves) + (if |moves| % 2 == 1 then "\n" else "") + tag
  }

  /** Everything `print_pgn` prints: the header, then the body on a line of
      its own. */
  function Transcript(result: Option<GameResult>, moves: seq<string>): (text: string)
  {
    Header(ResultTag(result)) + Body(moves, ResultTag(result)) + "\n"
  }

  lemma MoveTextStep(moves: seq<string>, i: nat)
    requires i < |moves|
    ensures MoveText(moves[..i + 1]) == MoveText(moves[..i]) + Entry(i, moves[i])
  {
    assert moves[..i + 1][..i] == moves[..i];
  }

  /** The three appends of one iteration add exactly the entry. */
  lemma EntryAppended(before: string, i: nat, mv: string)
    ensures (if i % 2 == 0 then before + NatToString(i / 2 + 1) + "." else before) + " " + mv
              + (if i % 2 == 1 then "\n" else "") == before + Entry(i, mv)
  {
  }

  /** `print_pgn`'s body loop. */
  method PgnBody(moves: seq<string>, tag: string) returns (body: string)
    ensures body == Body(moves, tag)
    ensures moves == [] ==> body == tag
  {
    body := "";
    for i := 0 to |moves|
      invariant body == MoveText(moves[..i])
    {
      MoveTextStep(moves, i);
      ghost var before := body;
      if i % 2 == 0 {
        body := body + NatToString(i / 2 + 1) + ".";
      }
      body := body + " " + moves[i];
      if i % 2 == 1 {
        body := body + "\n";
      }
      EntryAppended(before, i, moves[i]);
    }
    assert moves[..|moves|] == moves;
    if |moves| % 2 == 1 {
      body := body + "\n";
    }
    body := body + tag;
  }

  // ---------------------------------------------------------------------
  // Properties of the body

  /** The number of occurrences of `c` in `s`. */
  function Count(s: string, c: char): (n: nat)
    ensures n <= |s|
  {
    if s == [] then 0 else Count(s[..|s| - 1], c) + (if s[|s| - 1] == c then 1 else 0)
  }

  lemma {:induction false} CountAppend(a: string, b: string, c: char)
    ensures Count(a + b, c) == Count(a, c) + Count(b, c)
  {
    if b != [] {
      CountAppend(a, b[..|b| - 1], c);
      assert (a + b)[..|a + b| - 1] == a + b[..|b| - 1];
    } else {
      assert a + b == a;
    }
  }

  lemma {:induction false} CountDigits(s: string, c: char)
    requires forall k :: 0 <= k < |s| ==> '0' <= s[k] <= '9'
    requires !('0' <= c <= '9')
    ensures Count(s, c) == 0
  {
    if s != [] {
      CountDigits(s[..|s| - 1], c);
    }
  }

  /** A move's text holds no dot, space or newline (it names squares and a
      promotion piece). */
  predicate PlainMove(mv: string) {
    forall k :: 0 <= k < |mv| ==> mv[k] != '.' && mv[k] != ' ' && mv[k] != '\n'
  }

  lemma CountPlain(mv: string)
    requires PlainMove(mv)
    ensures Count(mv, '.') == 0 && Count(mv, ' ') == 0 && Count(mv, '\n') == 0
  {
    if mv != [] {
      CountPlain(mv[..|mv| - 1]);
    }
  }

  /** The counts of dots, spaces and newlines one entry adds. */
  lemma EntryCounts(i: nat, mv: string)
    requires PlainMove(mv)
    ensures Count(Entry(i, mv), '.') == (if i % 2 == 0 then 1 else 0)
    ensures Count(Entry(i, mv), ' ') == 1
    ensures Count(Entry(i, mv), '\n') == (if i % 2 == 1 then 1 else 0)
  {
    var num := if i % 2 == 0 then NatToString(i / 2 + 1) + "." else "";
    var nl := if i % 2 == 1 then "\n" else "";
    assert Entry(i, mv) == num + " " + mv + nl;
    CountPlain(mv);
    CountAppend(num + " " + mv, nl, '.');
    CountAppend(num + " " + mv, nl, ' ');
    CountAppend(num + " " + mv, nl, '\n');
    CountAppend(num + " ", mv, '.');
    CountAppend(num + " ", mv, ' ');
    CountAppend(num + " ", mv, '\n');
    CountAppend(num, " ", '.');
    CountAppend(num, " ", ' ');
    CountAppend(num, " ", '\n');
    if i % 2 == 0 {
      var digits := NatToString(i / 2 + 1);
      CountAppend(digits, ".", '.');
      CountAppend(digits, ".", ' ');
      CountAppend(digits, ".", '\n');
      CountDigits(digits, '.');
      CountDigits(digits, ' ');
      CountDigits(digits, '\n');
    }
  }

  /** One move number (and so one dot) per pair of moves, the last pair
      possibly unfinished. */
  lemma {:induction false} MoveNumberCount(moves: seq<string>)
    requires forall k :: 0 <= k < |moves| ==> PlainMove(moves[k])
    ensures Count(MoveText(moves), '.') == (|moves| + 1) / 2
  {
    if moves != [] {
      var init, n := moves[..|moves| - 1], |moves| - 1;
      MoveNumberCount(init);
      EntryCounts(n, moves[n]);
      CountAppend(MoveText(init), Entry(n, moves[n]), '.');
    }
  }

  /** Exactly one space per move. */
  lemma {:induction false} SpaceCount(moves: seq<string>)
    requires forall k :: 0 <= k < |moves| ==> PlainMove(moves[k])
    ensures Count(MoveText(moves), ' ') == |moves|
  {
    if moves != [] {
      var init, n := moves[..|moves| - 1], |moves| - 1;
      SpaceCount(init);
      EntryCounts(n, moves[n]);
      CountAppend(MoveText(init), Entry(n, moves[n]), ' ');
    }
  }

  /** One newline per finished pair of moves. */
  lemma {:induction false} PairNewlineCount(moves: seq<string>)
    requires forall k :: 0 <= k < |moves| ==> PlainMove(moves[k])
    ensures Count(MoveText(moves), '\n') == |moves| / 2
  {
    if moves != [] {
      var init, n := moves[..|moves| - 1], |moves| - 1;
      PairNewlineCount(init);
      EntryCounts(n, moves[n]);
      CountAppend(MoveText(init), Entry(n, moves[n]), '\n');
    }
  }

  /** The result marker ends the body on a line of its own: an empty game
      is the marker alone, and otherwise a newline comes just before it. */
  lemma BodyEndsWithTag(moves: seq<string>, tag: string)
    ensures moves == [] ==> Body(moves, tag) == tag
    ensures |Body(moves, tag)| >= |tag|
    ensures Body(moves, tag)[|Body(moves, tag)| - |tag|..] == tag
    ensures moves != [] ==> |Body(moves, tag)| > |tag| && Body(moves, tag)[|Body(moves, tag)| - |tag| - 1] == '\n'
  {
    var pre := MoveText(moves) + (if |moves| % 2 == 1 then "\n" else "");
    assert Body(moves, tag) == pre + tag;
    if moves != [] {
      LastLineClosed(moves);
    }
  }

  /** Once the pair in progress is closed, the text ends in a newline. */
  lemma LastLineClosed(moves: seq<string>)
    requires moves != []
    ensures var pre := MoveText(moves) + (if |moves| % 2 == 1 then "\n" else "");
      |pre| > 0 && pre[|pre| - 1] == '\n'
  {
    if |moves| % 2 == 0 {
      var n := |moves| - 1;
      var e := Entry(n, moves[n]);
      assert MoveText(moves) == MoveText(moves[..n]) + e;
      assert e == " " + moves[n] + "\n";
    }
  }

  /** The body holds one newline per move pair, counting an unfinished last
      pair, besides those in the marker. */
  lemma BodyNewlines(moves: seq<string>, tag: string)
    requires forall k :: 0 <= k < |moves| ==> PlainMove(moves[k])
    ensures Count(Body(moves, tag), '\n') == (|moves| + 1) / 2 + Count(tag, '\n')
  {
    var text := MoveText(moves);
    var nl := if |moves| % 2 == 1 then "\n" else "";
    PairNewlineCount(moves);
    assert Body(moves, tag) == (text + nl) + tag;
    CountAppend(text + nl, tag, '\n');
    CountAppend(text, nl, '\n');
    assert Count(nl, '\n') == |moves| % 2;
  }

  /** White's first move is numbered 1. */
  lemma FirstEntry(mv: string)
    ensures |Entry(0, mv)| >= 3 && Entry(0, mv)[..3] == "1. "
  {
    assert Digit(1) == '1';
    assert NatToString(1) == "1";
    assert Entry(0, mv) == "1. " + mv;
  }

  /** The first move is numbered 1. */
  lemma BodyStartsWithFirstMove(moves: seq<string>, tag: string)
    requires moves != []
    ensures |Body(moves, tag)| >= 3 && Body(moves, tag)[..3] == "1. "
  {
    var e := Entry(0, moves[0]);
    FirstEntry(moves[0]);
    MoveTextStep(moves, 0);
    assert moves[..0] == [];
    MoveTextPrefix(moves, 1);
    var text := MoveText(moves);
    assert text[..|e|] == e;
    assert Body(moves, tag)[..|text|] == text;
  }

  /** The loop only appends: the text for the first `i` moves is where the
      text for all of them begins. */
  lemma {:induction false} MoveTextPrefix(moves: seq<string>, i: nat)
    requires i <= |moves|
    ensures |MoveText(moves[..i])| <= |MoveText(moves)|
    ensures MoveText(moves)[..|MoveText(moves[..i])|] == MoveText(moves[..i])
  {
    if i < |moves| {
      var init := moves[..|moves| - 1];
      assert init[..i] == moves[..i];
      MoveTextPrefix(init, i);
    } else {
      assert moves[..i] == moves;
    }
  }

  /** The transcript opens with the header and closes with the same result
      marker the header's Result tag carries, on a line of its own. */
  lemma TranscriptShape(result: Option<GameResult>, moves: seq<string>)
    ensures var tag, t := ResultTag(result), Transcript(result, moves);
      && |Header(tag)| + |tag| + 1 <= |t|
      && t[..|Header(tag)|] == Header(tag)
      && t[|t| - |tag| - 1..] == tag + "\n"
  {
    var tag := ResultTag(result);
    var body := Body(moves, tag);
    BodyEndsWithTag(moves, tag);
    assert Transcript(result, moves) == Header(tag) + body + "\n";
    assert body == body[..|body| - |tag|] + tag;
  }
}
