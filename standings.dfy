/** The standings report: a heading naming the round, then a fixed-width table of
    the standings sorted by rank, one row per standing. */
module Standings {
  import opened Js
  import opened Identity
  import opened Output

  /** One entry of the standings list. `players` is `Team.Players` (a missing team or
      list is `[]`). `omwPercent` is `(OpponentMatchWinPercentage || 0) * 100` as
      `toFixed(1)` renders it; that floating-point rendering is not modelled. */
  datatype Standing = Standing(
    rank: Field<int>,
    position: Field<int>,
    roundNumber: Field<int>,
    players: seq<Player>,
    matchWins: Field<int>,
    matchLosses: Field<int>,
    matchDraws: Field<int>,
    gameWins: Field<int>,
    gameLosses: Field<int>,
    gameDraws: Field<int>,
    omwPercent: string)

  const NoStandingsMessage := "No current standings found for this tournament."

  // ---------------------------------------------------------------------------
  // Heading.

  /** The round phrase, taken from the first standing as fetched (before sorting):
      "Current" unless its `RoundNumber` is truthy; then "After Round N", with
      " of T" when the tournament's `NumberOfRounds` is truthy. */
  function RoundInfo(first: Standing, numberOfRounds: Field<int>): (info: string)
    ensures info == "Current" <==> !TruthyNumber(first.roundNumber)
    ensures TruthyNumber(first.roundNumber) && TruthyNumber(numberOfRounds) ==>
      info == "After Round " + IntToString(first.roundNumber.value) + " of " + IntToString(numberOfRounds.value)
    ensures TruthyNumber(first.roundNumber) && !TruthyNumber(numberOfRounds) ==>
      info == "After Round " + IntToString(first.roundNumber.value)
  {
    if !TruthyNumber(first.roundNumber) then "Current"
    else
      var after := "After Round " + IntToString(first.roundNumber.value);
      assert after[0] == 'A';
      if TruthyNumber(numberOfRounds) then after + " of " + IntToString(numberOfRounds.value) else after
  }

  function StandingsTitle(first: Standing, numberOfRounds: Field<int>): string {
    "Standings " + RoundInfo(first, numberOfRounds)
  }

  // ---------------------------------------------------------------------------
  // Sorting: `sort((a, b) => key(a) - key(b))`, which is stable.

  /** `Rank || Position || 999`. */
  function SortKey(s: Standing): int {
    NumberOr(s.rank, NumberOr(s.position, 999))
  }

  predicate SortedByKey(s: seq<Standing>) {
    forall i, j :: 0 <= i < j < |s| ==> SortKey(s[i]) <= SortKey(s[j])
  }

  /** Places `x` after every element of `sorted` whose key is at most its own, scanning from the back. */
  function Insert(sorted: seq<Standing>, x: Standing): seq<Standing> {
    if sorted == [] || SortKey(sorted[|sorted| - 1]) <= SortKey(x) then sorted + [x]
    else Insert(sorted[..|sorted| - 1], x) + [sorted[|sorted| - 1]]
  }

  /** The stable sort of `s` by SortKey. */
  function SortByKey(s: seq<Standing>): seq<Standing> {
    if s == [] then [] else Insert(SortByKey(s[..|s| - 1]), s[|s| - 1])
  }

  /** The standings with key `k`, in order. */
  function WithKey(s: seq<Standing>, k: int): seq<Standing> {
    if s == [] then []
    else WithKey(s[..|s| - 1], k) + if SortKey(s[|s| - 1]) == k then [s[|s| - 1]] else []
  }

  lemma {:induction false} InsertLength(sorted: seq<Standing>, x: Standing)
    ensures |Insert(sorted, x)| == |sorted| + 1
  {
    if sorted != [] && SortKey(sorted[|sorted| - 1]) > SortKey(x) {
      InsertLength(sorted[..|sorted| - 1], x);
    }
  }

  lemma {:induction false} InsertSorted(sorted: seq<Standing>, x: Standing)
    requires SortedByKey(sorted)
    ensures SortedByKey(Insert(sorted, x))
  {
    InsertLength(sorted, x);
    if sorted != [] && SortKey(sorted[|sorted| - 1]) > SortKey(x) {
      var front, last := sorted[..|sorted| - 1], sorted[|sorted| - 1];
      InsertSorted(front, x);
      InsertElements(front, x);
      var r := Insert(front, x);
      forall i | 0 <= i < |r| ensures SortKey(r[i]) <= SortKey(last) {
        var y := r[i];
        assert y in multiset(r);
        if y != x {
          assert y in multiset(front);
          var k :| 0 <= k < |front| && front[k] == y;
          assert sorted[k] == y;
        }
      }
      assert Insert(sorted, x) == r + [last];
    }
  }

  lemma {:induction false} InsertElements(sorted: seq<Standing>, x: Standing)
    ensures multiset(Insert(sorted, x)) == multiset(sorted) + multiset{x}
  {
    if sorted != [] && SortKey(sorted[|sorted| - 1]) > SortKey(x) {
      var front, last := sorted[..|sorted| - 1], sorted[|sorted| - 1];
      InsertElements(front, x);
      assert sorted == front + [last];
    }
  }

  /** Inserting `x` leaves the standings of every key in their order and adds `x` after
      those with its own key. */
  lemma {:induction false} InsertWithKey(sorted: seq<Standing>, x: Standing, k: int)
    ensures WithKey(Insert(sorted, x), k) == WithKey(sorted, k) + if SortKey(x) == k then [x] else []
  {
    if sorted == [] || SortKey(sorted[|sorted| - 1]) <= SortKey(x) {
      assert (sorted + [x])[..|sorted|] == sorted;
    } else {
      var front, last := sorted[..|sorted| - 1], sorted[|sorted| - 1];
      InsertWithKey(front, x, k);
      var r := Insert(front, x);
      assert (r + [last])[..|r|] == r;
      if SortKey(x) == k {
        assert SortKey(last) != k;
      }
    }
  }

  /** The sorted standings are in non-decreasing key order. */
  lemma {:induction false} SortByKeySorted(s: seq<Standing>)
    ensures SortedByKey(SortByKey(s))
  {
    if s != [] {
      SortByKeySorted(s[..|s| - 1]);
      InsertSorted(SortByKey(s[..|s| - 1]), s[|s| - 1]);
    }
  }

  /** Sorting keeps every standing, as often as it occurs. */
  lemma {:induction false} SortByKeyPermutation(s: seq<Standing>)
    ensures multiset(SortByKey(s)) == multiset(s)
  {
    if s != [] {
      var front, last := s[..|s| - 1], s[|s| - 1];
      SortByKeyPermutation(front);
      InsertElements(SortByKey(front), last);
      LastSplit(s);
    }
  }

  /** A non-empty sequence holds its front and its last element. */
  lemma LastSplit<T>(s: seq<T>)
    requires s != []
    ensures multiset(s) == multiset(s[..|s| - 1]) + multiset{s[|s| - 1]}
  {
    assert s == s[..|s| - 1] + [s[|s| - 1]];
  }

  /** The sort is stable: standings with equal keys keep their input order. */
  lemma {:induction false} SortByKeyStable(s: seq<Standing>, k: int)
    ensures WithKey(SortByKey(s), k) == WithKey(s, k)
  {
    if s != [] {
      SortByKeyStable(s[..|s| - 1], k);
      InsertWithKey(SortByKey(s[..|s| - 1]), s[|s| - 1], k);
    }
  }

  /** Insert puts `x` right after the last element whose key is at most its own:
      at `j` when every element from `j` on has a larger key and the one before `j` does not. */
  lemma {:induction false} InsertAt(p: seq<Standing>, j: nat, x: Standing)
    requires j <= |p|
    requires forall k :: j <= k < |p| ==> SortKey(p[k]) > SortKey(x)
    requires j == 0 || SortKey(p[j - 1]) <= SortKey(x)
    ensures Insert(p, x) == p[..j] + [x] + p[j..]
    decreases |p|
  {
    if j < |p| {
      var front := p[..|p| - 1];
      InsertAt(front, j, x);
      assert front[..j] == p[..j];
      assert front[j..] + [p[|p| - 1]] == p[j..];
    }
  }

  /** The inner loop of the insertion sort: moves the elements of `a[..i]` whose key
      exceeds that of `x`, from the back, one place right, and returns the gap it leaves.
      The key is a parameter, as the comparator is of `sort`. */
  method ShiftGreater<T>(a: array<T>, i: nat, x: T, key: T -> int) returns (j: nat)
    requires i < a.Length
    modifies a
    ensures j <= i
    ensures forall k :: 0 <= k < j ==> a[k] == old(a[k])
    ensures forall k :: j < k <= i ==> a[k] == old(a[k - 1])
    ensures forall k :: j <= k < i ==> key(old(a[k])) > key(x)
    ensures j == 0 || key(old(a[j - 1])) <= key(x)
    ensures forall k :: i < k < a.Length ==> a[k] == old(a[k])
  {
    j := i;
    while j > 0 && key(a[j - 1]) > key(x)
      invariant 0 <= j <= i
      invariant forall k :: 0 <= k < j ==> a[k] == old(a[k])
      invariant forall k :: j < k <= i ==> a[k] == old(a[k - 1])
      invariant forall k :: j <= k < i ==> key(old(a[k])) > key(x)
      invariant forall k :: i < k < a.Length ==> a[k] == old(a[k])
    {
      a[j] := a[j - 1];
      j := j - 1;
    }
  }

  /** The array after a shift and the drop into the gap at `j`: its first `i + 1` elements
      are the old prefix with `x` put at `j`, and the rest is as it was. */
  lemma ShiftedIsInsertion<T>(before: seq<T>, after: seq<T>, i: nat, j: nat, x: T)
    requires |after| == |before| && j <= i < |before|
    requires forall k :: 0 <= k < j ==> after[k] == before[k]
    requires after[j] == x
    requires forall k :: j < k <= i ==> after[k] == before[k - 1]
    requires forall k :: i < k < |before| ==> after[k] == before[k]
    ensures after[..i + 1] == before[..i][..j] + [x] + before[..i][j..]
    ensures after[i + 1..] == before[i + 1..]
  {
    var inserted := before[..i][..j] + [x] + before[..i][j..];
    assert forall k :: 0 <= k <= i ==> after[k] == inserted[k];
  }

  /** One step of the insertion sort: shifts the elements of `a[..i]` whose key exceeds
      that of `a[i]` one place right and drops `a[i]` into the gap. */
  method InsertInPlace(a: array<Standing>, i: nat)
    requires i < a.Length
    modifies a
    ensures a[..i + 1] == Insert(old(a[..i]), old(a[i]))
    ensures a[i + 1..] == old(a[i + 1..])
  {
    ghost var before := a[..];
    var x := a[i];
    var j := ShiftGreater(a, i, x, SortKey);
    a[j] := x;
    InsertAt(before[..i], j, x);
    ShiftedIsInsertion(before, a[..], i, j, x);
  }

  /** The in-place sort of the fetched list; an insertion sort, whose result is
      the one every stable sort by the same key produces. */
  method SortStandings(a: array<Standing>)
    modifies a
    ensures a[..] == SortByKey(old(a[..]))
  {
    ghost var input := a[..];
    var i := 0;
    while i < a.Length
      invariant 0 <= i <= a.Length
      invariant a[..i] == SortByKey(input[..i])
      invariant a[i..] == input[i..]
    {
      assert input[..i + 1][..i] == input[..i];
      assert input[i] == a[i];
      assert a[i + 1..] == a[i..][1..] == input[i..][1..] == input[i + 1..];
      InsertInPlace(a, i);
      assert a[i + 1..] == input[i + 1..];
      i := i + 1;
    }
    assert input[..a.Length] == input;
  }

  // ---------------------------------------------------------------------------
  // Table rows.

  /** `(Rank || Position || index + 1).toString()`, where `index` is the row's place in the sorted list. */
  function RankCell(s: Standing, index: nat): string {
    IntToString(NumberOr(s.rank, NumberOr(s.position, index + 1)))
  }

  /** The rank cell shows the sort key whenever the standing has a truthy rank or position;
      otherwise (sort key 999) it shows the row's 1-based place. */
  lemma RankCellAndKey(s: Standing, index: nat)
    ensures TruthyNumber(s.rank) || TruthyNumber(s.position) ==> RankCell(s, index) == IntToString(SortKey(s))
    ensures !TruthyNumber(s.rank) && !TruthyNumber(s.position) ==>
      SortKey(s) == 999 && RankCell(s, index) == IntToString(index + 1)
  {
  }

  /** The name after `@`: the Discord username without its discriminator when it is
      truthy, else `DisplayName || Username || "Unknown Player"` of the first team player. */
  function PlayerName(s: Standing): string {
    if s.players == [] then "Unknown Player"
    else
      var p := s.players[0];
      if TruthyString(p.discordUsername) then StripDiscriminator(p.discordUsername.value)
      else StringOr(p.displayName, StringOr(p.username, "Unknown Player"))
  }

  /** The standings name agrees with the handle of the other reports when the player has a
      Discord username; without one it prefers the display name, then the username, then
      "Unknown Player", which is also the name when there is no player. */
  lemma PlayerNameAndHandle(s: Standing)
    ensures s.players == [] ==> PlayerName(s) == "Unknown Player"
    ensures s.players != [] && TruthyString(s.players[0].discordUsername) ==> PlayerName(s) == Handle(s.players[0])
    ensures s.players != [] && !TruthyString(s.players[0].discordUsername) && TruthyString(s.players[0].displayName) ==>
      PlayerName(s) == s.players[0].displayName.value
    ensures s.players != [] && !TruthyString(s.players[0].discordUsername) && !TruthyString(s.players[0].displayName) ==>
      PlayerName(s) == StringOr(s.players[0].username, "Unknown Player")
  {
  }

  /** `W-L`, followed by `-D` when the draws are positive. */
  function Record(wins: int, losses: int, draws: int): string {
    IntToString(wins) + "-" + IntToString(losses) + if draws > 0 then "-" + IntToString(draws) else ""
  }

  /** Where the parts of a record sit: the wins, a dash, the losses, then either the end or a
      dash and the draws. Negative counts keep their own minus sign inside their part. */
  lemma RecordLayout(wins: int, losses: int, draws: int)
    ensures var r, w, l := Record(wins, losses, draws), IntToString(wins), IntToString(losses);
      && |w| + 1 + |l| <= |r|
      && r[..|w|] == w && r[|w|] == '-' && r[|w| + 1..|w| + 1 + |l|] == l
      && (draws > 0 <==> |w| + 1 + |l| < |r|)
      && (draws > 0 ==> r[|w| + 1 + |l|] == '-' && r[|w| + 2 + |l|..] == IntToString(draws))
  {
    var w, l := IntToString(wins), IntToString(losses);
    var tail := if draws > 0 then "-" + IntToString(draws) else "";
    var r := Record(wins, losses, draws);
    assert r == w + "-" + l + tail;
    assert r[..|w|] == w;
    assert r[|w| + 1..|w| + 1 + |l|] == l;
    if draws > 0 {
      assert r[|w| + 2 + |l|..] == IntToString(draws);
    }
  }

  /** Two runs of digits starting at the same place of `x`, each ending at a dash or at the end
      of `x`, are the same run. */
  lemma SameDigitRun(x: string, i: nat, a: string, c: string)
    requires AllDigits(a) && AllDigits(c)
    requires i + |a| <= |x| && x[i..i + |a|] == a && (i + |a| == |x| || x[i + |a|] == '-')
    requires i + |c| <= |x| && x[i..i + |c|] == c && (i + |c| == |x| || x[i + |c|] == '-')
    ensures a == c
  {
    assert x[i..i + |a|][..|a|] == a;
  }

  /** Two rendered integers starting at the same place of `x`, each ending at a dash or at the
      end of `x`, are the same rendering: a leading minus sign belongs to both or to neither. */
  lemma SameNumberRun(x: string, i: nat, m: int, n: int)
    requires var a := IntToString(m); i + |a| <= |x| && x[i..i + |a|] == a && (i + |a| == |x| || x[i + |a|] == '-')
    requires var c := IntToString(n); i + |c| <= |x| && x[i..i + |c|] == c && (i + |c| == |x| || x[i + |c|] == '-')
    ensures IntToString(m) == IntToString(n)
  {
    var a, c := IntToString(m), IntToString(n);
    assert x[i] == a[0] && x[i] == c[0] by {
      assert x[i..i + |a|][0] == a[0];
      assert x[i..i + |c|][0] == c[0];
    }
    if m < 0 {
      assert x[i + 1..i + 1 + (|a| - 1)] == a[1..] by {
        assert x[i + 1..i + |a|] == x[i..i + |a|][1..];
      }
      assert x[i + 1..i + 1 + (|c| - 1)] == c[1..] by {
        assert x[i + 1..i + |c|] == x[i..i + |c|][1..];
      }
      SameDigitRun(x, i + 1, a[1..], c[1..]);
      assert a == [a[0]] + a[1..] && c == [c[0]] + c[1..];
    } else {
      SameDigitRun(x, i, a, c);
    }
  }

  /** The wins and losses of equal records agree, and so does whether draws are shown. */
  lemma RecordPrefixAgrees(w1: int, l1: int, d1: int, w2: int, l2: int, d2: int)
    requires Record(w1, l1, d1) == Record(w2, l2, d2)
    ensures IntToString(w1) == IntToString(w2) && IntToString(l1) == IntToString(l2)
    ensures d1 > 0 <==> d2 > 0
  {
    var r := Record(w1, l1, d1);
    RecordLayout(w1, l1, d1);
    RecordLayout(w2, l2, d2);
    SameNumberRun(r, 0, w1, w2);
    SameNumberRun(r, |IntToString(w1)| + 1, l1, l2);
  }

  /** A record reads back unambiguously: equal records mean equal wins and losses, and equal
      draws unless neither count is positive, in which case no draws are shown at all. */
  lemma RecordInjective(w1: int, l1: int, d1: int, w2: int, l2: int, d2: int)
    ensures Record(w1, l1, d1) == Record(w2, l2, d2) <==>
      w1 == w2 && l1 == l2 && (d1 > 0 || d2 > 0 ==> d1 == d2)
  {
    if Record(w1, l1, d1) == Record(w2, l2, d2) {
      RecordPrefixAgrees(w1, l1, d1, w2, l2, d2);
      IntToStringInjective(w1, w2);
      IntToStringInjective(l1, l2);
      if d1 > 0 {
        RecordLayout(w1, l1, d1);
        RecordLayout(w2, l2, d2);
        IntToStringInjective(d1, d2);
      }
    }
  }

  /** The cells of the row of `s` at place `index`: rank, player, match record, game record, OMW. */
  function Row(s: Standing, index: nat): seq<string> {
    [RankCell(s, index),
     "@" + PlayerName(s),
     Record(NumberOr(s.matchWins, 0), NumberOr(s.matchLosses, 0), NumberOr(s.matchDraws, 0)),
     Record(NumberOr(s.gameWins, 0), NumberOr(s.gameLosses, 0), NumberOr(s.gameDraws, 0)),
     s.omwPercent + "%"]
  }

  const Headers: seq<string> := ["Rank", "Player", "Match", "Game", "OMW"]

  /** Extra width per column. */
  const Padding: seq<nat> := [1, 2, 1, 1, 1]

  const Fence := "```"

  /** The data rows, one per sorted standing, numbered by place. */
  function DataRows(sorted: seq<Standing>): (rows: seq<seq<string>>)
    ensures |rows| == |sorted|
    ensures forall r :: 0 <= r < |rows| ==> |rows[r]| == |Headers|
  {
    if sorted == [] then [] else DataRows(sorted[..|sorted| - 1]) + [Row(sorted[|sorted| - 1], |sorted| - 1)]
  }

  /** The row at place `i` is that of the `i`-th sorted standing. */
  lemma {:induction false} DataRowAt(sorted: seq<Standing>, i: nat)
    requires i < |sorted|
    ensures DataRows(sorted)[i] == Row(sorted[i], i)
  {
    if i < |sorted| - 1 {
      DataRowAt(sorted[..|sorted| - 1], i);
    }
  }

  lemma DataRowsGrow(sorted: seq<Standing>, n: nat)
    requires n < |sorted|
    ensures DataRows(sorted[..n + 1]) == DataRows(sorted[..n]) + [Row(sorted[n], n)]
  {
    assert sorted[..n + 1][..n] == sorted[..n];
  }

  /** `tableData`: the header row, then one row per sorted standing. */
  function TableData(sorted: seq<Standing>): (rows: seq<seq<string>>)
    ensures |rows| == |sorted| + 1
    ensures forall r :: 0 <= r < |rows| ==> |rows[r]| == |Headers|
  {
    [Headers] + DataRows(sorted)
  }

  /** Pushing onto a list pushes onto its tail past the first element. */
  lemma PushAfterFirst<T>(list: seq<T>, x: T)
    requires list != []
    ensures (list + [x])[1..] == list[1..] + [x]
  {
  }

  /** The `forEach` that pushes one row per sorted standing after the header row. */
  method BuildTable(sorted: seq<Standing>) returns (tableData: seq<seq<string>>)
    ensures tableData == TableData(sorted)
  {
    tableData := [Headers];
    var index := 0;
    while index < |sorted|
      invariant index <= |sorted|
      invariant |tableData| == index + 1 && tableData[0] == Headers
      invariant tableData[1..] == DataRows(sorted[..index])
    {
      DataRowsGrow(sorted, index);
      var row := Row(sorted[index], index);
      PushAfterFirst(tableData, row);
      tableData := tableData + [row];
      index := index + 1;
    }
    assert sorted[..index] == sorted;
    assert tableData == [tableData[0]] + tableData[1..];
  }

  // ---------------------------------------------------------------------------
  // Column widths.

  /** `Math.max` over the rows of the JavaScript length (UTF-16 code units) of their cell
      in column `c`. */
  function MaxCellLength(rows: seq<seq<string>>, c: nat): (m: nat)
    requires forall r :: 0 <= r < |rows| ==> c < |rows[r]|
    ensures forall r :: 0 <= r < |rows| ==> JsLength(rows[r][c]) <= m
    ensures rows != [] ==> exists r :: 0 <= r < |rows| && JsLength(rows[r][c]) == m
  {
    if rows == [] then 0
    else
      var rest := MaxCellLength(rows[..|rows| - 1], c);
      var last := JsLength(rows[|rows| - 1][c]);
      if last > rest then last else rest
  }

  /** The width of each column: its longest cell plus the column's padding. */
  function Widths(rows: seq<seq<string>>): (widths: seq<nat>)
    requires forall r :: 0 <= r < |rows| ==> |rows[r]| == |Headers|
    ensures |widths| == |Headers|
  {
    seq(|Headers|, c requires 0 <= c < |Headers| => MaxCellLength(rows, c) + Padding[c])
  }

  /** Every cell is strictly shorter than its column, and some cell of each column is
      exactly the padding short of it. */
  lemma CellsFit(rows: seq<seq<string>>)
    requires rows != []
    requires forall r :: 0 <= r < |rows| ==> |rows[r]| == |Headers|
    ensures forall r, c :: 0 <= r < |rows| && 0 <= c < |Headers| ==> JsLength(rows[r][c]) < Widths(rows)[c]
    ensures forall c :: 0 <= c < |Headers| ==>
      exists r :: 0 <= r < |rows| && JsLength(rows[r][c]) + Padding[c] == Widths(rows)[c]
  {
    forall c | 0 <= c < |Headers|
      ensures exists r :: 0 <= r < |rows| && JsLength(rows[r][c]) + Padding[c] == Widths(rows)[c]
    {
      var r :| 0 <= r < |rows| && JsLength(rows[r][c]) == MaxCellLength(rows, c);
    }
  }

  /** `columnWidths`: the `map` to the longest cell of each column, then the `forEach`
      that adds each column's padding in place. */
  method ColumnWidths(tableData: seq<seq<string>>) returns (columnWidths: array<nat>)
    requires forall r :: 0 <= r < |tableData| ==> |tableData[r]| == |Headers|
    ensures fresh(columnWidths)
    ensures columnWidths[..] == Widths(tableData)
  {
    var longest := seq(|Headers|, c requires 0 <= c < |Headers| => MaxCellLength(tableData, c));
    columnWidths := new nat[|Headers|](c requires 0 <= c < |Headers| => longest[c]);
    var index := 0;
    while index < columnWidths.Length
      invariant 0 <= index <= columnWidths.Length
      invariant forall c :: 0 <= c < index ==> columnWidths[c] == longest[c] + Padding[c]
      invariant forall c :: index <= c < columnWidths.Length ==> columnWidths[c] == longest[c]
    {
      columnWidths[index] := columnWidths[index] + Padding[index];
      index := index + 1;
    }
  }

  // ---------------------------------------------------------------------------
  // Formatting.

  function Sum(ws: seq<nat>): nat {
    if ws == [] then 0 else Sum(ws[..|ws| - 1]) + ws[|ws| - 1]
  }

  /** `formatRow`: each cell (`cell || ""`) padded to its column's width, all joined. */
  function FormatRow(row: seq<string>, widths: seq<nat>): string
    requires |row| == |widths|
  {
    if row == [] then "" else FormatRow(row[..|row| - 1], widths[..|widths| - 1]) + PadEnd(row[|row| - 1], widths[|widths| - 1])
  }

  /** The separator cells: one run of `-` per column, as wide as the column. */
  function Separators(widths: seq<nat>): (cells: seq<string>)
    ensures |cells| == |widths|
  {
    seq(|widths|, c requires 0 <= c < |widths| => Repeat('-', widths[c]))
  }

  /** The formatted data rows, in order. */
  function DataLines(rows: seq<seq<string>>, widths: seq<nat>): (lines: seq<string>)
    requires forall r :: 0 <= r < |rows| ==> |rows[r]| == |widths|
    ensures |lines| == |rows|
  {
    if rows == [] then [] else DataLines(rows[..|rows| - 1], widths) + [FormatRow(rows[|rows| - 1], widths)]
  }

  /** The fenced table: the header row (the first row of `tableData`), the separator row,
      then every other row, each formatted to `widths`. */
  function FormatTable(tableData: seq<seq<string>>, widths: seq<nat>): seq<string>
    requires tableData != []
    requires forall r :: 0 <= r < |tableData| ==> |tableData[r]| == |widths|
  {
    [Fence, FormatRow(tableData[0], widths), FormatRow(Separators(widths), widths)]
    + DataLines(tableData[1..], widths) + [Fence]
  }

  /** The table as printed: formatted to the column widths of the whole table. */
  function Table(tableData: seq<seq<string>>): seq<string>
    requires tableData != []
    requires forall r :: 0 <= r < |tableData| ==> |tableData[r]| == |Headers|
  {
    FormatTable(tableData, Widths(tableData))
  }

  /** Everything `standingsCommand` prints, given the fetched standings (in the order fetched)
      and the tournament's `NumberOfRounds`. */
  function StandingsOutput(standings: seq<Standing>, numberOfRounds: Field<int>): seq<string> {
    if standings == [] then [NoStandingsMessage]
    else [Banner(StandingsTitle(standings[0], numberOfRounds))] + Table(TableData(SortByKey(standings)))
  }

  // ---------------------------------------------------------------------------
  // What the table looks like.

  /** `line` holds `cell` whole at the character `k` that comes `start` UTF-16 code units
      into it, and a space right after it. */
  predicate ShowsCellAt(line: string, k: nat, start: nat, cell: string) {
    && k + |cell| < |line|
    && JsLength(line[..k]) == start
    && line[k..k + |cell|] == cell
    && line[k + |cell|] == ' '
  }

  /** `line` holds `cell` whole `start` UTF-16 code units in, and a space right after it. */
  predicate ShowsCell(line: string, start: nat, cell: string) {
    exists k :: 0 <= k < |line| && ShowsCellAt(line, k, start, cell)
  }

  lemma {:induction false} FormatRowLength(row: seq<string>, widths: seq<nat>)
    requires |row| == |widths|
    requires forall c :: 0 <= c < |row| ==> JsLength(row[c]) <= widths[c]
    ensures JsLength(FormatRow(row, widths)) == Sum(widths)
  {
    if row != [] {
      var m := |row| - 1;
      FormatRowLength(row[..m], widths[..m]);
      PadEndJsLength(row[m], widths[m]);
      JsLengthAppend(FormatRow(row[..m], widths[..m]), PadEnd(row[m], widths[m]));
    }
  }

  /** A cell padded past its length shows whole where it starts, then a space. */
  lemma ShowsPaddedCell(head: string, cell: string, width: nat)
    requires JsLength(cell) < width
    ensures ShowsCell(head + PadEnd(cell, width), JsLength(head), cell)
  {
    var line, padded := head + PadEnd(cell, width), PadEnd(cell, width);
    PadEndJsLength(cell, width);
    assert line[..|head|] == head;
    assert line[|head|..|head| + |cell|] == padded[..|cell|];
    assert line[|head| + |cell|] == padded[|cell|];
    assert ShowsCellAt(line, |head|, JsLength(head), cell);
  }

  /** What a line shows, it still shows with more text after it. */
  lemma ShowsCellExtended(line: string, more: string, start: nat, cell: string)
    requires ShowsCell(line, start, cell)
    ensures ShowsCell(line + more, start, cell)
  {
    var longer := line + more;
    var k :| 0 <= k < |line| && ShowsCellAt(line, k, start, cell);
    assert longer[..k] == line[..k];
    assert longer[k..k + |cell|] == line[k..k + |cell|];
    assert ShowsCellAt(longer, k, start, cell);
  }

  /** In a formatted row whose cells are shorter than their columns, column `c` starts after
      the widths of the columns before it and shows its cell whole, then a space. */
  lemma {:induction false} CellAt(row: seq<string>, widths: seq<nat>, c: nat)
    requires |row| == |widths| && c < |row|
    requires forall i :: 0 <= i < |row| ==> JsLength(row[i]) < widths[i]
    ensures ShowsCell(FormatRow(row, widths), Sum(widths[..c]), row[c])
  {
    var m := |row| - 1;
    var front, frontWidths := row[..m], widths[..m];
    var head, last := FormatRow(front, frontWidths), PadEnd(row[m], widths[m]);
    assert FormatRow(row, widths) == head + last;
    if c == m {
      FormatRowLength(front, frontWidths);
      assert widths[..c] == frontWidths;
      ShowsPaddedCell(head, row[m], widths[m]);
    } else {
      CellAt(front, frontWidths, c);
      assert frontWidths[..c] == widths[..c] && front[c] == row[c];
      ShowsCellExtended(head, last, Sum(widths[..c]), row[c]);
    }
  }

  /** The separator row is a run of `-` as wide as the table. */
  lemma {:induction false} SeparatorRow(widths: seq<nat>)
    ensures var line := FormatRow(Separators(widths), widths);
      JsLength(line) == Sum(widths) && forall i :: 0 <= i < |line| ==> line[i] == '-'
  {
    if widths != [] {
      var m := |widths| - 1;
      assert Separators(widths)[..m] == Separators(widths[..m]);
      SeparatorRow(widths[..m]);
      var dashes := Repeat('-', widths[m]);
      RepeatJsLength('-', widths[m]);
      assert PadEnd(dashes, widths[m]) == dashes;
      JsLengthAppend(FormatRow(Separators(widths[..m]), widths[..m]), dashes);
    }
  }

  lemma {:induction false} DataLineAt(rows: seq<seq<string>>, widths: seq<nat>, i: nat)
    requires forall r :: 0 <= r < |rows| ==> |rows[r]| == |widths|
    requires i < |rows|
    ensures DataLines(rows, widths)[i] == FormatRow(rows[i], widths)
  {
    if i < |rows| - 1 {
      DataLineAt(rows[..|rows| - 1], widths, i);
    }
  }

  /** Row `r` of `tableData` is printed on line 1 of the table when it is the header row,
      and on line `r + 2`, after the separator, otherwise. */
  lemma TableLineOf(tableData: seq<seq<string>>, widths: seq<nat>, r: nat)
    requires r < |tableData|
    requires forall i :: 0 <= i < |tableData| ==> |tableData[i]| == |widths|
    ensures |FormatTable(tableData, widths)| == |tableData| + 3
    ensures r == 0 ==> FormatTable(tableData, widths)[1] == FormatRow(tableData[0], widths)
    ensures r > 0 ==> FormatTable(tableData, widths)[r + 2] == FormatRow(tableData[r], widths)
  {
    if r > 0 {
      DataLineAt(tableData[1..], widths, r - 1);
    }
  }

  /** The frame of a table formatted to widths its cells fit: fences first and last, every
      line between them as wide as the table, and the separator row all `-`. */
  lemma FrameOf(tableData: seq<seq<string>>, widths: seq<nat>)
    requires tableData != []
    requires forall r :: 0 <= r < |tableData| ==> |tableData[r]| == |widths|
    requires forall r, c :: 0 <= r < |tableData| && 0 <= c < |widths| ==> JsLength(tableData[r][c]) < widths[c]
    ensures var out := FormatTable(tableData, widths);
      && |out| == |tableData| + 3
      && out[0] == Fence && out[|out| - 1] == Fence
      && (forall l :: 1 <= l < |out| - 1 ==> JsLength(out[l]) == Sum(widths))
      && (forall i :: 0 <= i < |out[2]| ==> out[2][i] == '-')
  {
    var out := FormatTable(tableData, widths);
    TableLineOf(tableData, widths, 0);
    SeparatorRow(widths);
    forall l | 1 <= l < |out| - 1 ensures JsLength(out[l]) == Sum(widths) {
      if l != 2 {
        var r := if l == 1 then 0 else l - 2;
        TableLineOf(tableData, widths, r);
        FormatRowLength(tableData[r], widths);
      }
    }
  }

  /** In a table formatted to widths its cells fit, every cell is shown whole where its
      column starts, followed by a space: the header row on line 1, row `r` on line `r + 2`. */
  lemma CellsOf(tableData: seq<seq<string>>, widths: seq<nat>)
    requires tableData != []
    requires forall r :: 0 <= r < |tableData| ==> |tableData[r]| == |widths|
    requires forall r, c :: 0 <= r < |tableData| && 0 <= c < |widths| ==> JsLength(tableData[r][c]) < widths[c]
    ensures var out := FormatTable(tableData, widths);
      && (forall c :: 0 <= c < |widths| ==> ShowsCell(out[1], Sum(widths[..c]), tableData[0][c]))
      && (forall r, c :: 1 <= r < |tableData| && 0 <= c < |widths| ==>
            ShowsCell(out[r + 2], Sum(widths[..c]), tableData[r][c]))
  {
    var out := FormatTable(tableData, widths);
    TableLineOf(tableData, widths, 0);
    forall c | 0 <= c < |widths| ensures ShowsCell(out[1], Sum(widths[..c]), tableData[0][c]) {
      CellAt(tableData[0], widths, c);
    }
    forall r, c | 1 <= r < |tableData| && 0 <= c < |widths|
      ensures ShowsCell(out[r + 2], Sum(widths[..c]), tableData[r][c])
    {
      TableLineOf(tableData, widths, r);
      CellAt(tableData[r], widths, c);
    }
  }

  /** The frame of the printed table, to the column widths of the whole table. */
  lemma TableFrame(tableData: seq<seq<string>>)
    requires tableData != []
    requires forall r :: 0 <= r < |tableData| ==> |tableData[r]| == |Headers|
    ensures var out, widths := Table(tableData), Widths(tableData);
      && |out| == |tableData| + 3
      && out[0] == Fence && out[|out| - 1] == Fence
      && (forall l :: 1 <= l < |out| - 1 ==> JsLength(out[l]) == Sum(widths))
      && (forall i :: 0 <= i < |out[2]| ==> out[2][i] == '-')
  {
    CellsFit(tableData);
    FrameOf(tableData, Widths(tableData));
  }

  /** The cells of the printed table, to the column widths of the whole table. */
  lemma TableCells(tableData: seq<seq<string>>)
    requires tableData != []
    requires forall r :: 0 <= r < |tableData| ==> |tableData[r]| == |Headers|
    ensures var out, widths := Table(tableData), Widths(tableData);
      && (forall c :: 0 <= c < |Headers| ==> ShowsCell(out[1], Sum(widths[..c]), tableData[0][c]))
      && (forall r, c :: 1 <= r < |tableData| && 0 <= c < |Headers| ==>
            ShowsCell(out[r + 2], Sum(widths[..c]), tableData[r][c]))
  {
    CellsFit(tableData);
    CellsOf(tableData, Widths(tableData));
  }

  lemma SortByKeyLength(s: seq<Standing>)
    ensures |SortByKey(s)| == |s|
  {
    SortByKeyPermutation(s);
    assert |multiset(SortByKey(s))| == |multiset(s)|;
  }

  /** With standings, the report is the heading, then the table of the sorted standings,
      whose row for the standing at place `i` shows that standing's cells. */
  lemma StandingsTable(standings: seq<Standing>, numberOfRounds: Field<int>)
    requires standings != []
    ensures var out, tableData := StandingsOutput(standings, numberOfRounds), TableData(SortByKey(standings));
      && |out| == |standings| + 5
      && out[0] == Banner(StandingsTitle(standings[0], numberOfRounds))
      && out[1..] == Table(tableData)
      && tableData[0] == Headers
      && (forall i :: 0 <= i < |standings| ==> tableData[i + 1] == Row(SortByKey(standings)[i], i))
  {
    var sorted := SortByKey(standings);
    SortByKeyLength(standings);
    forall i | 0 <= i < |standings| ensures TableData(sorted)[i + 1] == Row(sorted[i], i) {
      DataRowAt(sorted, i);
    }
  }

  /** The last `forEach`: prints each data row, formatted, after `stdout`. */
  method PrintRows(stdout: seq<string>, dataRows: seq<seq<string>>, widths: seq<nat>) returns (out: seq<string>)
    requires forall r :: 0 <= r < |dataRows| ==> |dataRows[r]| == |widths|
    ensures out == stdout + DataLines(dataRows, widths)
  {
    out := stdout;
    var n := 0;
    while n < |dataRows|
      invariant n <= |dataRows|
      invariant out == stdout + DataLines(dataRows[..n], widths)
    {
      assert dataRows[..n + 1][..n] == dataRows[..n];
      out := out + [FormatRow(dataRows[n], widths)];
      n := n + 1;
    }
    assert dataRows[..n] == dataRows;
  }

  /** Prints the fenced table after `stdout`: the headers, the separators, then the data rows. */
  method PrintFormatted(stdout: seq<string>, tableData: seq<seq<string>>, widths: seq<nat>) returns (out: seq<string>)
    requires tableData != [] && tableData[0] == Headers
    requires forall r :: 0 <= r < |tableData| ==> |tableData[r]| == |widths|
    ensures out == stdout + FormatTable(tableData, widths)
  {
    ghost var head := [Fence, FormatRow(Headers, widths), FormatRow(Separators(widths), widths)];
    out := stdout + [Fence, FormatRow(Headers, widths), FormatRow(Separators(widths), widths)];
    out := PrintRows(out, tableData[1..], widths);
    out := out + [Fence];
    assert out == stdout + (head + DataLines(tableData[1..], widths) + [Fence]);
  }

  /** Computes the column widths of `tableData` and prints the fenced table after `stdout`. */
  method PrintTable(stdout: seq<string>, tableData: seq<seq<string>>) returns (out: seq<string>)
    requires tableData != [] && tableData[0] == Headers
    requires forall r :: 0 <= r < |tableData| ==> |tableData[r]| == |Headers|
    ensures out == stdout + Table(tableData)
  {
    var columnWidths := ColumnWidths(tableData);
    out := PrintFormatted(stdout, tableData, columnWidths[..]);
  }

  /** `standingsCommand`, with the fetched standings as the array the source sorts in place. */
  method StandingsCommand(content: array<Standing>, numberOfRounds: Field<int>) returns (stdout: seq<string>)
    modifies content
    ensures stdout == StandingsOutput(old(content[..]), numberOfRounds)
    ensures content[..] == SortByKey(old(content[..]))
  {
    if content.Length == 0 {
      return [NoStandingsMessage];
    }
    var roundInfo := RoundInfo(content[0], numberOfRounds);
    stdout := [Banner("Standings " + roundInfo)];
    SortStandings(content);
    var tableData := BuildTable(content[..]);
    stdout := PrintTable(stdout, tableData);
  }
}
