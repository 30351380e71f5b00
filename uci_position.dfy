/** The token handling of the protocol's `position` command: which tokens name the FEN
    and which moves are replayed. The line has already been split on whitespace; building
    the board from the FEN and replaying the moves belong to the rules library. */
module UciPosition {

  import opened Wrappers

  /** What the command sets the board to. `Unchanged` is a second token other than
      `startpos` or `fen`, which the loop ignores. */
  datatype Setup =
    | StartPos(moves: seq<string>)
    | FromFen(fen: seq<string>, moves: seq<string>)
    | Unchanged

  /** Reading a token past the end of the list raises IndexError, which nothing in the
      loop catches. */
  datatype ParseError = IndexError

  /** Python's `max(0, min(i, n))` after adding n to a negative i: a slice bound. */
  function SliceBound(i: int, n: nat): (j: nat)
    ensures j <= n
    ensures 0 <= i <= n ==> j == i
    ensures i < 0 && n + i >= 0 ==> j == n + i
  {
    if i < 0 then (if n + i < 0 then 0 else n + i)
    else if i > n then n
    else i
  }

  /** Python's `s[start:stop]`. */
  function Slice<T>(s: seq<T>, start: int, stop: int): (r: seq<T>)
    ensures 0 <= start <= stop <= |s| ==> r == s[start..stop]
    ensures 0 <= start && stop < 0 && start <= |s| + stop ==> r == s[start..|s| + stop]
    ensures 0 <= start && stop < 0 && start > |s| + stop ==> r == []
    ensures 0 <= stop <= start ==> r == []
  {
    var lo, hi := SliceBound(start, |s|), SliceBound(stop, |s|);
    if lo < hi then s[lo..hi] else []
  }

  /** `tok in parts` and `parts.index(tok)`: the first occurrence. */
  function IndexOf(parts: seq<string>, tok: string): (r: Option<nat>)
    ensures r.None? <==> tok !in parts
    ensures r.Some? ==> r.value < |parts| && parts[r.value] == tok && tok !in parts[..r.value]
  {
    if parts == [] then None
    else if parts[0] == tok then Some(0)
    else
      match IndexOf(parts[1..], tok)
      case None => None
      case Some(i) =>
        assert parts[..i + 1] == [parts[0]] + parts[1..][..i];
        Some(i + 1)
  }

  /** The `position` branch of the protocol loop, as written. */
  function ParsePosition(parts: seq<string>): (r: Result<Setup, ParseError>)
    ensures r.Failure? <==> |parts| < 2 || (parts[1] == "startpos" && |parts| < 3)
    ensures r == Success(Unchanged) <==> |parts| >= 2 && parts[1] != "startpos" && parts[1] != "fen"
  {
    if |parts| < 2 then Failure(IndexError)
    else if parts[1] == "startpos" then
      if |parts| < 3 then Failure(IndexError)
      else
        var movesStart := if parts[2] == "moves" then 3 else 2;
        Success(StartPos(if |parts| > movesStart then parts[movesStart..] else []))
    else if parts[1] == "fen" then
      var idx := IndexOf(parts, "moves");
      var fen := Slice(parts, 2, if idx.Some? then idx.value else -1);
      Success(FromFen(fen, if idx.Some? then parts[idx.value + 1..] else []))
    else
      Success(Unchanged)
  }

  /** The same with the two slips repaired: a bare `position startpos` means no moves,
      and without `moves` the FEN runs to the last token. */
  function ParsePositionFixed(parts: seq<string>): (r: Result<Setup, ParseError>)
    ensures r.Failure? <==> |parts| < 2
    ensures r == Success(Unchanged) <==> |parts| >= 2 && parts[1] != "startpos" && parts[1] != "fen"
    ensures |parts| == 2 && parts[1] == "startpos" ==> r == Success(StartPos([]))
  {
    if |parts| < 2 then Failure(IndexError)
    else if parts[1] == "startpos" then
      var movesStart := if |parts| > 2 && parts[2] == "moves" then 3 else 2;
      Success(StartPos(if |parts| > movesStart then parts[movesStart..] else []))
    else if parts[1] == "fen" then
      var idx := IndexOf(parts, "moves");
      var fen := Slice(parts, 2, if idx.Some? then idx.value else |parts|);
      Success(FromFen(fen, if idx.Some? then parts[idx.value + 1..] else []))
    else
      Success(Unchanged)
  }

  /** The command a GUI sends for a setup: `moves` and the move list only when there are
      moves to replay. */
  function Format(setup: Setup): seq<string> {
    match setup
    case StartPos(ms) => ["position", "startpos"] + (if ms == [] then [] else ["moves"] + ms)
    case FromFen(f, ms) => ["position", "fen"] + f + (if ms == [] then [] else ["moves"] + ms)
    case Unchanged => ["position"]
  }

  /** Setups a command can describe: a FEN never contains the token `moves`. */
  predicate Describable(setup: Setup) {
    match setup
    case StartPos(_) => true
    case FromFen(f, _) => "moves" !in f
    case Unchanged => false
  }

  /** The first `moves` in a list is found after a prefix that has none. */
  lemma IndexOfAfter(prefix: seq<string>, rest: seq<string>)
    requires "moves" !in prefix
    ensures IndexOf(prefix + ["moves"] + rest, "moves") == Some(|prefix|)
  {
    var parts := prefix + ["moves"] + rest;
    assert parts[..|prefix|] == prefix;
    assert parts[|prefix|] == "moves";
    assert forall j :: 0 <= j < |prefix| ==> parts[j] == prefix[j];
  }

  /** `position startpos moves m1 ... mk` replays exactly m1 ... mk. */
  lemma StartposMovesReplayed(ms: seq<string>)
    ensures ParsePosition(["position", "startpos", "moves"] + ms) == Success(StartPos(ms))
  {
  }

  /** `position fen f1 ... fn moves m1 ... mk`: the FEN is the tokens strictly between
      `fen` and `moves`, and the replayed moves are the tokens after `moves`. */
  lemma FenBetweenFenAndMoves(f: seq<string>, ms: seq<string>)
    requires "moves" !in f
    ensures ParsePosition(["position", "fen"] + f + ["moves"] + ms) == Success(FromFen(f, ms))
  {
    var prefix := ["position", "fen"] + f;
    var parts := prefix + ["moves"] + ms;
    IndexOfAfter(prefix, ms);
    assert parts[2..|prefix|] == f;
    assert parts[|prefix| + 1..] == ms;
  }

  /** Without `moves`, the slice stops at -1, so the last token is left out of the FEN
      (for a complete six-field FEN, the full-move number). */
  lemma FenWithoutMovesDropsLast(f: seq<string>)
    requires "moves" !in f && |f| > 0
    ensures ParsePosition(["position", "fen"] + f) == Success(FromFen(f[..|f| - 1], []))
  {
    var parts := ["position", "fen"] + f;
    assert "moves" !in parts;
    assert parts[2..|parts| - 1] == f[..|f| - 1];
  }

  /** A bare `position startpos` reads a third token that is not there. */
  lemma BareStartposFails()
    ensures ParsePosition(Format(StartPos([]))) == Failure(IndexError)
  {
  }

  /** With the repairs, `position fen f1 ... fn` gives the whole FEN back. */
  lemma FenOnlyRoundTrip(f: seq<string>)
    requires "moves" !in f
    ensures ParsePositionFixed(Format(FromFen(f, []))) == Success(FromFen(f, []))
  {
    var parts := ["position", "fen"] + f;
    assert Format(FromFen(f, [])) == parts;
    assert "moves" !in parts;
    assert parts[2..|parts|] == f;
  }

  /** With the repairs, `position fen f1 ... fn moves m1 ... mk` gives the FEN and the
      moves back. */
  lemma FenMovesRoundTrip(f: seq<string>, ms: seq<string>)
    requires "moves" !in f && ms != []
    ensures ParsePositionFixed(Format(FromFen(f, ms))) == Success(FromFen(f, ms))
  {
    var prefix := ["position", "fen"] + f;
    var parts := prefix + ["moves"] + ms;
    assert Format(FromFen(f, ms)) == parts;
    IndexOfAfter(prefix, ms);
    assert parts[2..|prefix|] == f;
    assert parts[|prefix| + 1..] == ms;
  }

  /** With the repairs, every describable setup survives formatting and parsing. */
  lemma ParseFormatRoundTrip(setup: Setup)
    requires Describable(setup)
    ensures ParsePositionFixed(Format(setup)) == Success(setup)
  {
    match setup
    case StartPos(ms) =>
      if ms != [] {
        assert Format(setup)[3..] == ms;
      }
    case FromFen(f, ms) =>
      if ms == [] {
        FenOnlyRoundTrip(f);
      } else {
        FenMovesRoundTrip(f, ms);
      }
  }
}
