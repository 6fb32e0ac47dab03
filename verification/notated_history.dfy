/** The move list of the web client (`packages/web/src/NotatedHistory.tsx`):
    the history's notations grouped into numbered pairs, white's move first. */
module NotatedHistory {
  import opened Wrappers

  /** A history entry; only its notation is read here. */
  datatype HistoryEntry = HistoryEntry(notation: string)

  /** A row of the move list. The source's type also admits a row with only a
      second move; `SegmentHistoryIntoPairs` never makes one. */
  datatype NotationPair = NotationPair(first: Option<string>, second: Option<string>)

  function Notations(history: seq<HistoryEntry>): (r: seq<string>)
    ensures |r| == |history| && forall i :: 0 <= i < |history| ==> r[i] == history[i].notation
  {
    seq(|history|, i requires 0 <= i < |history| => history[i].notation)
  }

  /** Row `j` of the list for `notations`: moves 2j and, when there is one,
      2j + 1. */
  function Chunk(notations: seq<string>, j: nat): NotationPair
    requires 2 * j < |notations|
  {
    NotationPair(Some(notations[2 * j]), if 2 * j + 1 < |notations| then Some(notations[2 * j + 1]) else None)
  }

  /** The list as a recursive definition: two moves per row, a last move on
      its own. */
  function Pairs(notations: seq<string>): seq<NotationPair>
    decreases |notations|
  {
    if |notations| == 0 then []
    else if |notations| == 1 then [NotationPair(Some(notations[0]), None)]
    else [NotationPair(Some(notations[0]), Some(notations[1]))] + Pairs(notations[2..])
  }

  /** The notations of a row, first then second, skipping an empty place. */
  function Moves(pair: NotationPair): seq<string> {
    (match pair.first case Some(n) => [n] case None => []) +
    (match pair.second case Some(n) => [n] case None => [])
  }

  /** The notations of the rows, read in order. */
  function Flatten(pairs: seq<NotationPair>): seq<string> {
    if |pairs| == 0 then [] else Moves(pairs[0]) + Flatten(pairs[1..])
  }

  /** `segmentHistoryIntoPairs`: a move at an even index opens a row, a move
      at an odd index fills the row's second place. The result has one row
      per two moves, rounded up; row `j` holds moves 2j and 2j + 1, the second
      place empty exactly when move 2j is the last. */
  method SegmentHistoryIntoPairs(history: seq<HistoryEntry>) returns (pairedHistory: seq<NotationPair>)
    ensures |pairedHistory| == (|history| + 1) / 2
    ensures forall j :: 0 <= j < |pairedHistory| ==>
              2 * j < |history| &&
              pairedHistory[j].first == Some(history[2 * j].notation) &&
              (pairedHistory[j].second.None? <==> 2 * j + 1 == |history|) &&
              (2 * j + 1 < |history| ==> pairedHistory[j].second == Some(history[2 * j + 1].notation))
    ensures pairedHistory == Pairs(Notations(history))
  {
    ghost var notations := Notations(history);
    pairedHistory := [];
    for index := 0 to |history|
      invariant |pairedHistory| == (index + 1) / 2
      invariant forall j :: 0 <= j < |pairedHistory| ==> 2 * j < index && pairedHistory[j] == Chunk(notations[..index], j)
    {
      var historyMove := history[index];
      var chunkIndex := index / 2;
      if chunkIndex >= |pairedHistory| {
        pairedHistory := pairedHistory + [NotationPair(Some(historyMove.notation), None)];
      } else {
        var nextChunk := pairedHistory[chunkIndex];
        pairedHistory := pairedHistory[chunkIndex := NotationPair(nextChunk.first, Some(historyMove.notation))];
      }
    }
    assert notations[..|history|] == notations;
    PairsByChunk(notations);
  }

  /** The recursive definition lists the rows `Chunk` describes. */
  lemma {:induction false} PairsByChunk(notations: seq<string>)
    ensures |Pairs(notations)| == (|notations| + 1) / 2
    ensures forall j :: 0 <= j < |Pairs(notations)| ==> 2 * j < |notations| && Pairs(notations)[j] == Chunk(notations, j)
    decreases |notations|
  {
    if |notations| >= 2 {
      var rest := notations[2..];
      PairsByChunk(rest);
      forall j | 1 <= j < |Pairs(notations)|
        ensures Pairs(notations)[j] == Chunk(notations, j)
      {
        assert Pairs(notations)[j] == Pairs(rest)[j - 1];
        assert Chunk(rest, j - 1) == Chunk(notations, j);
      }
    }
  }

  /** No row has an empty first place: the `[null, string]` shape the type
      admits never occurs. */
  lemma FirstNeverEmpty(history: seq<HistoryEntry>)
    ensures forall j :: 0 <= j < |Pairs(Notations(history))| ==> Pairs(Notations(history))[j].first.Some?
  {
    PairsByChunk(Notations(history));
  }

  /** Reading the rows in order gives the notations back. */
  lemma {:induction false} FlattenPairs(notations: seq<string>)
    ensures Flatten(Pairs(notations)) == notations
    decreases |notations|
  {
    if |notations| == 1 {
      assert Flatten(Pairs(notations)) == [notations[0]] + Flatten([]);
    } else if |notations| >= 2 {
      var rest := notations[2..];
      FlattenPairs(rest);
      var pairs := Pairs(notations);
      assert pairs[1..] == Pairs(rest);
      assert Moves(pairs[0]) == notations[..2];
      assert notations == notations[..2] + rest;
    }
  }
}
