/** The pairings report: a heading derived from the tournament's phases, the BYEs
    of the current round, then every regular pairing numbered with a glyph. */
module Pairings {
  import opened Js
  import opened Identity
  import opened Output

  /** One side of a match: its team's players (only the first is used; a missing
      team or player list is `[]`) and the decklists attached to it for this match. */
  datatype Competitor = Competitor(players: seq<Player>, decklists: seq<MatchDecklist>)

  /** A current match. A missing `Competitors` list is `[]`. */
  datatype Match = Match(
    roundNumber: Field<int>,
    phaseId: Field<int>,
    byeReason: Field<int>,
    competitors: seq<Competitor>)

  /** A tournament phase; `roundCount` is the length of its `Rounds` list when it has one. */
  datatype Phase = Phase(id: Field<int>, roundCount: Field<nat>)

  const NoPairingsMessage := "No current pairings found for this tournament."

  function FetchNotice(tournamentId: string): string {
    "Fetching current pairings for tournament " + tournamentId + "...\n"
  }

  // ---------------------------------------------------------------------------
  // getParticipantInfo: player ID -> handle and participant-level deck.

  datatype ParticipantInfo = ParticipantInfo(discord: string, deck: Option<DeckInfo>)

  function InfoOf(p: Player): ParticipantInfo {
    ParticipantInfo(Handle(p), ParticipantDeck(p))
  }

  /** The map after `set(player.ID, …)` for every player, in list order. */
  function ParticipantMapOf(players: seq<Player>): map<Field<int>, ParticipantInfo> {
    if players == [] then map[]
    else
      var last := players[|players| - 1];
      ParticipantMapOf(players[..|players| - 1])[last.id := InfoOf(last)]
  }

  /** The map has an entry for exactly the IDs of the listed players. */
  lemma {:induction false} ParticipantMapKeys(players: seq<Player>, id: Field<int>)
    ensures id in ParticipantMapOf(players) <==> exists i :: 0 <= i < |players| && players[i].id == id
  {
    if players != [] {
      var front := players[..|players| - 1];
      ParticipantMapKeys(front, id);
      if id in ParticipantMapOf(front) {
        var i :| 0 <= i < |front| && front[i].id == id;
        assert players[i].id == id;
      }
      if exists i :: 0 <= i < |players| && players[i].id == id {
        var i :| 0 <= i < |players| && players[i].id == id;
        if i < |front| {
          assert front[i].id == id;
        }
      }
    }
  }

  /** A later player with the same ID overwrites an earlier one: the entry is that of the last. */
  lemma {:induction false} ParticipantMapLastWins(players: seq<Player>, i: nat)
    requires i < |players|
    requires forall j :: i < j < |players| ==> players[j].id != players[i].id
    ensures players[i].id in ParticipantMapOf(players)
    ensures ParticipantMapOf(players)[players[i].id] == InfoOf(players[i])
  {
    if i < |players| - 1 {
      var front := players[..|players| - 1];
      assert front[i] == players[i];
      ParticipantMapLastWins(front, i);
    }
  }

  /** Builds the participant map with one `set` per player, as `getParticipantInfo` does. */
  method GetParticipantInfo(players: seq<Player>) returns (participantMap: map<Field<int>, ParticipantInfo>)
    ensures participantMap == ParticipantMapOf(players)
  {
    participantMap := map[];
    var n := 0;
    while n < |players|
      invariant n <= |players|
      invariant participantMap == ParticipantMapOf(players[..n])
    {
      var player := players[n];
      assert players[..n + 1][..n] == players[..n];
      participantMap := participantMap[player.id := InfoOf(player)];
      n := n + 1;
    }
    assert players[..n] == players;
  }

  // ---------------------------------------------------------------------------
  // getNumberEmoji.

  const NumberEmojis: seq<string> :=
    [":one:", ":two:", ":three:", ":four:", ":five:",
     ":six:", ":seven:", ":eight:", ":nine:", ":keycap_ten:"]

  /** The glyph of the pairing at 0-based position `index`: a named glyph for the
      first ten, then `:N:` with N = index + 1. */
  function NumberEmoji(index: nat): (e: string)
    ensures index < 10 ==> e == NumberEmojis[index]
    ensures index >= 10 ==> e == ":" + NatToString(index + 1) + ":"
  {
    if index < |NumberEmojis| then NumberEmojis[index] else ":" + NatToString(index + 1) + ":"
  }

  /** The second character of a glyph is a digit exactly for the numbered ones. */
  lemma GlyphSecondChar(index: nat)
    ensures |NumberEmoji(index)| >= 2
    ensures IsDigit(NumberEmoji(index)[1]) <==> index >= 10
  {
    if index >= 10 {
      assert NumberEmoji(index)[1] == NatToString(index + 1)[0];
    }
  }

  /** The named glyphs are pairwise different. */
  lemma NamedGlyphsDistinct(a: nat, b: nat)
    requires a < b < 10
    ensures NumberEmojis[a] != NumberEmojis[b]
  {
    var ea, eb := NumberEmojis[a], NumberEmojis[b];
    if |ea| == |eb| {
      assert ea[1] != eb[1] || ea[2] != eb[2] || ea[3] != eb[3];
    }
  }

  /** Different pairings never share a glyph. */
  lemma NumberEmojiInjective(a: nat, b: nat)
    requires a != b
    ensures NumberEmoji(a) != NumberEmoji(b)
  {
    var ea, eb := NumberEmoji(a), NumberEmoji(b);
    GlyphSecondChar(a);
    GlyphSecondChar(b);
    if a >= 10 && b >= 10 {
      if ea == eb {
        assert ea[1..|ea| - 1] == NatToString(a + 1);
        assert eb[1..|eb| - 1] == NatToString(b + 1);
        NatToStringInjective(a + 1, b + 1);
      }
    } else if a < 10 && b < 10 {
      if a < b { NamedGlyphsDistinct(a, b); } else { NamedGlyphsDistinct(b, a); }
    }
  }

  // ---------------------------------------------------------------------------
  // Heading.

  /** `Phases.find(phase => phase.ID === id)` followed by `indexOf`: the first phase with that ID. */
  function PhaseIndexOf(phases: seq<Phase>, id: int): (r: Option<nat>)
    ensures r.Some? ==> r.value < |phases| && phases[r.value].id == Present(id)
    ensures r.Some? ==> forall j :: 0 <= j < r.value ==> phases[j].id != Present(id)
    ensures r.None? ==> forall j :: 0 <= j < |phases| ==> phases[j].id != Present(id)
  {
    if phases == [] then None
    else if phases[0].id == Present(id) then Some(0)
    else
      match PhaseIndexOf(phases[1..], id)
      case None => None
      case Some(k) => Some(k + 1)
  }

  /** `Rounds.length`, or "?" when the phase has no round list. */
  function RoundsText(phase: Phase): string {
    if phase.roundCount.Present? then NatToString(phase.roundCount.value) else "?"
  }

  /** The heading text for a round whose first match is `first`. N is
      `RoundNumber || 1`; the phase is the first whose ID equals the match's truthy `PhaseId`. */
  function PairingTitle(first: Match, phases: seq<Phase>): (title: string)
    ensures title != ""
  {
    var n := IntToString(NumberOr(first.roundNumber, 1));
    var fallback := "Round " + n + " Pairings";
    if !TruthyNumber(first.phaseId) then
      fallback
    else
      match PhaseIndexOf(phases, first.phaseId.value)
      case None => fallback
      case Some(i) =>
        if i == 1 then "Double Elimination Bracket"
        else "Round " + n + " of " + RoundsText(phases[i]) + " Pairings"
  }

  /** Without a truthy phase ID, or with one that no phase carries, the heading is the plain round. */
  lemma PairingTitleWithoutPhase(first: Match, phases: seq<Phase>)
    requires !TruthyNumber(first.phaseId) || forall j :: 0 <= j < |phases| ==> phases[j].id != first.phaseId
    ensures PairingTitle(first, phases) == "Round " + IntToString(NumberOr(first.roundNumber, 1)) + " Pairings"
  {
    if TruthyNumber(first.phaseId) {
      var r := PhaseIndexOf(phases, first.phaseId.value);
    }
  }

  /** When the first phase with the match's ID is at place `i` other than 1, the heading
      is `Round N of R`, with R the number of rounds of that phase. */
  lemma PairingTitleOfPhase(first: Match, phases: seq<Phase>, i: nat)
    requires i < |phases| && i != 1 && TruthyNumber(first.phaseId) && phases[i].id == first.phaseId
    requires forall j :: 0 <= j < i ==> phases[j].id != first.phaseId
    ensures PairingTitle(first, phases)
         == "Round " + IntToString(NumberOr(first.roundNumber, 1)) + " of " + RoundsText(phases[i]) + " Pairings"
  {
    var r := PhaseIndexOf(phases, first.phaseId.value);
    assert r.Some? && r.value == i;
  }

  /** The heading is the bracket heading exactly when the match's phase is the second phase
      (and not also the first). */
  lemma PairingTitleBracket(first: Match, phases: seq<Phase>)
    ensures PairingTitle(first, phases) == "Double Elimination Bracket" <==>
      TruthyNumber(first.phaseId) && 1 < |phases| && phases[0].id != first.phaseId && phases[1].id == first.phaseId
  {
    var title := PairingTitle(first, phases);
    var n := IntToString(NumberOr(first.roundNumber, 1));
    if TruthyNumber(first.phaseId) {
      var r := PhaseIndexOf(phases, first.phaseId.value);
      if r.Some? && r.value != 1 {
        var numbered := "Round " + n + " of " + RoundsText(phases[r.value]) + " Pairings";
        assert title == numbered;
        assert numbered[0] == 'R';
      } else if r.None? {
        assert title == "Round " + n + " Pairings";
        assert title[0] == 'R';
      }
    } else {
      assert title == "Round " + n + " Pairings";
      assert title[0] == 'R';
    }
  }

  // ---------------------------------------------------------------------------
  // Classification.

  /** One competitor and a `ByeReason` that is not `null` (a missing one counts). */
  predicate IsBye(m: Match) {
    |m.competitors| == 1 && m.byeReason != Null
  }

  /** Exactly two competitors. */
  predicate IsRegular(m: Match) {
    |m.competitors| == 2
  }

  lemma ByeAndRegularDisjoint(m: Match)
    ensures !(IsBye(m) && IsRegular(m))
  {
  }

  /** The BYE matches, in input order. */
  function Byes(ms: seq<Match>): seq<Match> {
    if ms == [] then []
    else Byes(ms[..|ms| - 1]) + if IsBye(ms[|ms| - 1]) then [ms[|ms| - 1]] else []
  }

  /** The regular matches, in input order. */
  function Regulars(ms: seq<Match>): seq<Match> {
    if ms == [] then []
    else Regulars(ms[..|ms| - 1]) + if IsRegular(ms[|ms| - 1]) then [ms[|ms| - 1]] else []
  }

  /** The matches neither list takes, in input order. */
  function Dropped(ms: seq<Match>): seq<Match> {
    if ms == [] then []
    else
      var m := ms[|ms| - 1];
      Dropped(ms[..|ms| - 1]) + if !IsBye(m) && !IsRegular(m) then [m] else []
  }

  lemma {:induction false} ByesAreByes(ms: seq<Match>)
    ensures forall i :: 0 <= i < |Byes(ms)| ==> IsBye(Byes(ms)[i])
  {
    if ms != [] {
      ByesAreByes(ms[..|ms| - 1]);
    }
  }

  lemma {:induction false} RegularsAreRegular(ms: seq<Match>)
    ensures forall i :: 0 <= i < |Regulars(ms)| ==> IsRegular(Regulars(ms)[i])
  {
    if ms != [] {
      RegularsAreRegular(ms[..|ms| - 1]);
    }
  }

  lemma {:induction false} DroppedAreNeither(ms: seq<Match>)
    ensures forall i :: 0 <= i < |Dropped(ms)| ==> !IsBye(Dropped(ms)[i]) && !IsRegular(Dropped(ms)[i])
  {
    if ms != [] {
      DroppedAreNeither(ms[..|ms| - 1]);
    }
  }

  lemma ByesStep(front: seq<Match>, m: Match)
    ensures multiset(Byes(front + [m])) == multiset(Byes(front)) + if IsBye(m) then multiset{m} else multiset{}
  {
    assert (front + [m])[..|front|] == front;
  }

  lemma RegularsStep(front: seq<Match>, m: Match)
    ensures multiset(Regulars(front + [m])) == multiset(Regulars(front)) + if IsRegular(m) then multiset{m} else multiset{}
  {
    assert (front + [m])[..|front|] == front;
  }

  lemma DroppedStep(front: seq<Match>, m: Match)
    ensures multiset(Dropped(front + [m]))
         == multiset(Dropped(front)) + if !IsBye(m) && !IsRegular(m) then multiset{m} else multiset{}
  {
    assert (front + [m])[..|front|] == front;
  }

  /** The three lists together hold every match exactly as often as the input does. */
  lemma {:induction false} PartitionCounts(ms: seq<Match>)
    ensures multiset(Byes(ms)) + multiset(Regulars(ms)) + multiset(Dropped(ms)) == multiset(ms)
  {
    if ms != [] {
      var front, m := ms[..|ms| - 1], ms[|ms| - 1];
      PartitionCounts(front);
      assert ms == front + [m];
      ByesStep(front, m);
      RegularsStep(front, m);
      DroppedStep(front, m);
      CountsStep(multiset(Byes(front)), multiset(Regulars(front)), multiset(Dropped(front)),
                 multiset(Byes(ms)), multiset(Regulars(ms)), multiset(Dropped(ms)), m, IsBye(m), IsRegular(m));
    }
  }

  /** Adding one element to exactly one of three parts adds it once to their sum. */
  lemma CountsStep<T>(b: multiset<T>, r: multiset<T>, d: multiset<T>,
                      b': multiset<T>, r': multiset<T>, d': multiset<T>, m: T, toB: bool, toR: bool)
    requires !(toB && toR)
    requires b' == b + if toB then multiset{m} else multiset{}
    requires r' == r + if toR then multiset{m} else multiset{}
    requires d' == d + if !toB && !toR then multiset{m} else multiset{}
    ensures b' + r' + d' == b + r + d + multiset{m}
  {
  }

  /** Three sequences whose multisets add up to that of `ms` hold between them exactly the elements of `ms`. */
  lemma MembersOfSplit<T>(ms: seq<T>, b: seq<T>, r: seq<T>, d: seq<T>)
    requires multiset(b) + multiset(r) + multiset(d) == multiset(ms)
    ensures forall m :: m in ms <==> m in b || m in r || m in d
  {
    forall m ensures m in ms <==> m in b || m in r || m in d {
      assert m in ms <==> m in multiset(ms);
      assert m in b <==> m in multiset(b);
      assert m in r <==> m in multiset(r);
      assert m in d <==> m in multiset(d);
    }
  }

  /** Every match lands in exactly one of BYEs, regular pairings and dropped matches. */
  lemma Partition(ms: seq<Match>)
    ensures multiset(Byes(ms)) + multiset(Regulars(ms)) + multiset(Dropped(ms)) == multiset(ms)
    ensures forall m :: m in Byes(ms) <==> m in ms && IsBye(m)
    ensures forall m :: m in Regulars(ms) <==> m in ms && IsRegular(m)
    ensures forall m :: m in Dropped(ms) <==> m in ms && !IsBye(m) && !IsRegular(m)
  {
    PartitionCounts(ms);
    ByesAreByes(ms);
    RegularsAreRegular(ms);
    DroppedAreNeither(ms);
    MembersOfSplit(ms, Byes(ms), Regulars(ms), Dropped(ms));
  }

  // ---------------------------------------------------------------------------
  // Lines.

  /** The deck shown for a competitor: its match-level decklist when it has one,
      else what the participant map holds for the player's ID, else none. */
  function DeckFor(c: Competitor, p: Player, participantMap: map<Field<int>, ParticipantInfo>): Option<DeckInfo> {
    if |c.decklists| > 0 then Some(MatchDeck(c.decklists[0]))
    else if p.id in participantMap then participantMap[p.id].deck
    else None
  }

  function DeckDisplay(d: Option<DeckInfo>): string {
    match d
    case Some(info) => "([" + info.name + "](" + info.url + "))"
    case None => "(No deck info)"
  }

  /** The deck display is a linked name in parentheses, or "(No deck info)" without a deck. */
  lemma DeckDisplayCases(d: Option<DeckInfo>)
    ensures d.None? ==> DeckDisplay(d) == "(No deck info)"
    ensures d.Some? ==> DeckDisplay(d) == "([" + d.value.name + "](" + d.value.url + "))"
  {
  }

  /** `@handle (deck)` for one competitor; None when it has no player, where the source throws. */
  function PlayerInfo(c: Competitor, participantMap: map<Field<int>, ParticipantInfo>): Option<string> {
    if c.players == [] then None
    else
      var p := c.players[0];
      Some("@" + Handle(p) + " " + DeckDisplay(DeckFor(c, p, participantMap)))
  }

  /** The line of a BYE; None where the source throws (no first competitor, or no player). */
  function ByeLine(m: Match, participantMap: map<Field<int>, ParticipantInfo>): Option<string> {
    if |m.competitors| < 1 then None
    else
    match PlayerInfo(m.competitors[0], participantMap)
    case None => None
    case Some(info) => Some(":white_check_mark: " + info + " - BYE")
  }

  /** The line of the regular pairing numbered `index`; None where the source throws. */
  function PairingLine(index: nat, m: Match, participantMap: map<Field<int>, ParticipantInfo>): Option<string> {
    if |m.competitors| < 2 then None
    else
    var info1, info2 := PlayerInfo(m.competitors[0], participantMap), PlayerInfo(m.competitors[1], participantMap);
    if info1.None? || info2.None? then None
    else Some(NumberEmoji(index) + " " + info1.value + " vs " + info2.value)
  }

  /** A BYE line exists exactly when the match has a first competitor with a player; it
      then opens with the check mark and that player's handle and closes with ` - BYE`. */
  lemma ByeLineShape(m: Match, participantMap: map<Field<int>, ParticipantInfo>)
    ensures ByeLine(m, participantMap).Some? <==> |m.competitors| >= 1 && m.competitors[0].players != []
    ensures ByeLine(m, participantMap).Some? ==>
      var line, open := ByeLine(m, participantMap).value, ":white_check_mark: @" + Handle(m.competitors[0].players[0]) + " ";
      && |open| + 6 <= |line|
      && line[..|open|] == open
      && line[|line| - 6..] == " - BYE"
      && line[|open|..|line| - 6] == DeckDisplay(DeckFor(m.competitors[0], m.competitors[0].players[0], participantMap))
  {
    if ByeLine(m, participantMap).Some? {
      var c := m.competitors[0];
      var p := c.players[0];
      var open := ":white_check_mark: @" + Handle(p) + " ";
      var deck := DeckDisplay(DeckFor(c, p, participantMap));
      var info := PlayerInfo(c, participantMap).value;
      assert info == "@" + Handle(p) + " " + deck;
      ByeLineRegroup(Handle(p), deck);
      var line := ByeLine(m, participantMap).value;
      assert line == ":white_check_mark: " + info + " - BYE";
      assert line == open + deck + " - BYE";
      assert line[..|open|] == open;
      assert line[|open|..|line| - 6] == deck;
    }
  }

  /** How a BYE line's text splits around its deck. */
  lemma ByeLineRegroup(handle: string, deck: string)
    ensures ":white_check_mark: " + ("@" + handle + " " + deck) + " - BYE"
         == (":white_check_mark: @" + handle + " ") + (deck + " - BYE")
  {
  }

  /** A pairing line exists exactly when both competitors exist and have a player; it is
      then the glyph, each player's handle followed by their deck display, joined by " vs ". */
  lemma PairingLineShape(index: nat, m: Match, participantMap: map<Field<int>, ParticipantInfo>)
    ensures PairingLine(index, m, participantMap).Some? <==>
      |m.competitors| >= 2 && m.competitors[0].players != [] && m.competitors[1].players != []
    ensures PairingLine(index, m, participantMap).Some? ==>
      var line, open := PairingLine(index, m, participantMap).value,
        NumberEmoji(index) + " @" + Handle(m.competitors[0].players[0]) + " ";
      && |open| < |line|
      && line[..|open|] == open
      && line[|line| - 1] == ')'
      && line == NumberEmoji(index)
                 + " @" + Handle(m.competitors[0].players[0]) + " "
                 + DeckDisplay(DeckFor(m.competitors[0], m.competitors[0].players[0], participantMap))
                 + " vs @" + Handle(m.competitors[1].players[0]) + " "
                 + DeckDisplay(DeckFor(m.competitors[1], m.competitors[1].players[0], participantMap))
  {
    if PairingLine(index, m, participantMap).Some? {
      var c0, c1 := m.competitors[0], m.competitors[1];
      var p0, p1 := c0.players[0], c1.players[0];
      var glyph, h0, h1 := NumberEmoji(index), Handle(p0), Handle(p1);
      var deck0, deck1 := DeckDisplay(DeckFor(c0, p0, participantMap)), DeckDisplay(DeckFor(c1, p1, participantMap));
      assert PlayerInfo(c0, participantMap).value == "@" + h0 + " " + deck0;
      assert PlayerInfo(c1, participantMap).value == "@" + h1 + " " + deck1;
      var line := PairingLine(index, m, participantMap).value;
      assert line == glyph + " " + ("@" + h0 + " " + deck0) + " vs " + ("@" + h1 + " " + deck1);
      PairingLineRegroup(glyph, h0, deck0, h1, deck1);
    }
  }

  /** How a pairing line's text splits around its first deck, and how it reads flat. */
  lemma PairingLineRegroup(glyph: string, h0: string, deck0: string, h1: string, deck1: string)
    ensures var line := glyph + " " + ("@" + h0 + " " + deck0) + " vs " + ("@" + h1 + " " + deck1);
      var open := glyph + " @" + h0 + " ";
      && line == open + (deck0 + " vs @" + h1 + " " + deck1)
      && line == glyph + " @" + h0 + " " + deck0 + " vs @" + h1 + " " + deck1
      && |open| < |line| && line[..|open|] == open
  {
    var line := glyph + " " + ("@" + h0 + " " + deck0) + " vs " + ("@" + h1 + " " + deck1);
    var open := glyph + " @" + h0 + " ";
    assert line == open + (deck0 + " vs @" + h1 + " " + deck1);
    assert line[..|open|] == open;
  }

  /** The BYE lines as built, one per BYE, in order. */
  function ByeLines(byes: seq<Match>, participantMap: map<Field<int>, ParticipantInfo>): (r: seq<Option<string>>)
    ensures |r| == |byes|
  {
    seq(|byes|, i requires 0 <= i < |byes| => ByeLine(byes[i], participantMap))
  }

  /** The regular pairing lines as built; the one at position k carries glyph k. */
  function PairingLines(regulars: seq<Match>, participantMap: map<Field<int>, ParticipantInfo>): (r: seq<Option<string>>)
    ensures |r| == |regulars|
  {
    seq(|regulars|, k requires 0 <= k < |regulars| => PairingLine(k, regulars[k], participantMap))
  }

  /** Everything `pairingsCommand` prints, given the fetched matches, participants and phases. */
  function PairingsOutput(tournamentId: string, matches: seq<Match>, participants: seq<Player>, phases: seq<Phase>): Console {
    if matches == [] then
      Console([FetchNotice(tournamentId), NoPairingsMessage], false)
    else
      var participantMap := ParticipantMapOf(participants);
      var head := Console([FetchNotice(tournamentId), Banner(PairingTitle(matches[0], phases))], false);
      Then(Then(head, Emit(ByeLines(Byes(matches), participantMap))), Emit(PairingLines(Regulars(matches), participantMap)))
  }

  /** The first loop of `pairingsCommand`: one pass that pushes each match onto
      `byeMatches` or `regularMatches`, or onto neither. */
  method SplitMatches(matches: seq<Match>) returns (byeMatches: seq<Match>, regularMatches: seq<Match>)
    ensures byeMatches == Byes(matches) && regularMatches == Regulars(matches)
  {
    byeMatches, regularMatches := [], [];
    var n := 0;
    while n < |matches|
      invariant n <= |matches|
      invariant byeMatches == Byes(matches[..n]) && regularMatches == Regulars(matches[..n])
    {
      var m := matches[n];
      assert matches[..n + 1][..n] == matches[..n];
      if |m.competitors| == 1 && m.byeReason != Null {
        byeMatches := byeMatches + [m];
      } else if |m.competitors| == 2 {
        regularMatches := regularMatches + [m];
      }
      n := n + 1;
    }
    assert matches[..n] == matches;
  }

  /** A competitor's match-level decklist wins; without one the deck is that of the
      last listed participant with the player's ID; with no such participant there is none. */
  lemma DeckPrecedence(c: Competitor, p: Player, participants: seq<Player>)
    ensures |c.decklists| > 0 ==>
              DeckFor(c, p, ParticipantMapOf(participants))
                == Some(DeckInfo(FieldText(c.decklists[0].decklistName), DeckUrlPrefix + FieldText(c.decklists[0].decklistId)))
    ensures |c.decklists| == 0 && (forall i :: 0 <= i < |participants| ==> participants[i].id != p.id) ==>
              DeckFor(c, p, ParticipantMapOf(participants)) == None
    ensures forall i ::
              |c.decklists| == 0 && 0 <= i < |participants| && participants[i].id == p.id &&
              (forall j :: i < j < |participants| ==> participants[j].id != p.id) ==>
              DeckFor(c, p, ParticipantMapOf(participants)) == ParticipantDeck(participants[i])
  {
    ParticipantMapKeys(participants, p.id);
    forall i | 0 <= i < |participants| && participants[i].id == p.id &&
               (forall j :: i < j < |participants| ==> participants[j].id != p.id)
      ensures ParticipantMapOf(participants)[p.id] == InfoOf(participants[i])
    {
      ParticipantMapLastWins(participants, i);
    }
  }

  /** With no matches the report is the notice and the "no pairings" message, without a heading. */
  lemma NoPairings(tournamentId: string, participants: seq<Player>, phases: seq<Phase>)
    ensures PairingsOutput(tournamentId, [], participants, phases)
         == Console([FetchNotice(tournamentId), NoPairingsMessage], false)
  {
  }

  /** With matches, the report is the notice and the heading, then the BYE lines, then the pairing lines. */
  lemma PairingsSections(tournamentId: string, matches: seq<Match>, participants: seq<Player>, phases: seq<Phase>)
    requires matches != []
    ensures var pm := ParticipantMapOf(participants);
      PairingsOutput(tournamentId, matches, participants, phases)
        == Then(Then(Console([FetchNotice(tournamentId), Banner(PairingTitle(matches[0], phases))], false),
                     Emit(ByeLines(Byes(matches), pm))),
                Emit(PairingLines(Regulars(matches), pm)))
  {
  }

  /** With matches, the report opens with the notice and the heading. */
  lemma PairingsHeading(tournamentId: string, matches: seq<Match>, participants: seq<Player>, phases: seq<Phase>)
    requires matches != []
    ensures var out := PairingsOutput(tournamentId, matches, participants, phases);
      |out.stdout| >= 2 && out.stdout[..2] == [FetchNotice(tournamentId), Banner(PairingTitle(matches[0], phases))]
  {
    var pm := ParticipantMapOf(participants);
    PairingsSections(tournamentId, matches, participants, phases);
    EmitTwoGroups([FetchNotice(tournamentId), Banner(PairingTitle(matches[0], phases))],
                  ByeLines(Byes(matches), pm), PairingLines(Regulars(matches), pm));
  }

  /** After the heading come the BYE lines in input order, then the regular pairings in
      input order, the k-th of them (counting regular pairings only, from 0) with glyph k.
      When a line throws, the output ends just before it. */
  lemma PairingsOrder(tournamentId: string, matches: seq<Match>, participants: seq<Player>, phases: seq<Phase>)
    requires matches != []
    ensures var out, byes, pm := PairingsOutput(tournamentId, matches, participants, phases), Byes(matches), ParticipantMapOf(participants);
      && |out.stdout| <= 2 + |byes| + |Regulars(matches)|
      && PrintedAt(out.stdout, 2, ByeLines(byes, pm))
      && PrintedAt(out.stdout, 2 + |byes|, PairingLines(Regulars(matches), pm))
      && (out.failed ==> StopsAt(out.stdout, 2, ByeLines(byes, pm) + PairingLines(Regulars(matches), pm)))
  {
    var pm := ParticipantMapOf(participants);
    var byes, regulars := Byes(matches), Regulars(matches);
    var head := [FetchNotice(tournamentId), Banner(PairingTitle(matches[0], phases))];
    var byeLines, pairingLines := ByeLines(byes, pm), PairingLines(regulars, pm);
    PairingsSections(tournamentId, matches, participants, phases);
    assert |head| == 2 && |byeLines| == |byes| && |pairingLines| == |regulars|;
    EmitTwoGroups(head, byeLines, pairingLines);
  }

  /** The command fails exactly when some BYE or pairing line throws, and then the output
      stops at the first such line; otherwise it prints one line per BYE and per regular
      pairing after the heading. */
  lemma PairingsFailure(tournamentId: string, matches: seq<Match>, participants: seq<Player>, phases: seq<Phase>)
    requires matches != []
    ensures var out := PairingsOutput(tournamentId, matches, participants, phases);
      var byes, regulars, pm := Byes(matches), Regulars(matches), ParticipantMapOf(participants);
      && (!out.failed <==> AllRendered(ByeLines(byes, pm)) && AllRendered(PairingLines(regulars, pm)))
      && (!out.failed ==> |out.stdout| == 2 + |byes| + |regulars|)
      && (out.failed ==> StopsAt(out.stdout, 2, ByeLines(byes, pm) + PairingLines(regulars, pm)))
  {
    var pm := ParticipantMapOf(participants);
    var byes, regulars := Byes(matches), Regulars(matches);
    var head := [FetchNotice(tournamentId), Banner(PairingTitle(matches[0], phases))];
    var byeLines, pairingLines := ByeLines(byes, pm), PairingLines(regulars, pm);
    PairingsSections(tournamentId, matches, participants, phases);
    assert |head| == 2 && |byeLines| == |byes| && |pairingLines| == |regulars|;
    EmitTwoGroups(head, byeLines, pairingLines);
  }

  /** The second loop: prints each BYE after `stdout`, stopping when one cannot be rendered. */
  method PrintByes(stdout: seq<string>, byeMatches: seq<Match>, participantMap: map<Field<int>, ParticipantInfo>)
    returns (out: Console)
    ensures out == Then(Console(stdout, false), Emit(ByeLines(byeMatches, participantMap)))
  {
    ghost var rendered := ByeLines(byeMatches, participantMap);
    var lines := stdout;
    var b := 0;
    while b < |byeMatches|
      invariant b <= |byeMatches|
      invariant Then(Console(stdout, false), Emit(rendered)) == Then(Console(lines, false), Emit(rendered[b..]))
    {
      var line := ByeLine(byeMatches[b], participantMap);
      assert line == rendered[b];
      if line.None? {
        return Console(lines, true);
      }
      EmitFrom(rendered, b);
      lines := lines + [line.value];
      b := b + 1;
    }
    out := Console(lines, false);
  }

  /** The third loop: prints each regular pairing numbered by `pairingIndex`, counting from 0. */
  method PrintPairings(stdout: seq<string>, regularMatches: seq<Match>, participantMap: map<Field<int>, ParticipantInfo>)
    returns (out: Console)
    ensures out == Then(Console(stdout, false), Emit(PairingLines(regularMatches, participantMap)))
  {
    ghost var rendered := PairingLines(regularMatches, participantMap);
    var lines := stdout;
    var pairingIndex := 0;
    while pairingIndex < |regularMatches|
      invariant pairingIndex <= |regularMatches|
      invariant Then(Console(stdout, false), Emit(rendered)) == Then(Console(lines, false), Emit(rendered[pairingIndex..]))
    {
      var line := PairingLine(pairingIndex, regularMatches[pairingIndex], participantMap);
      assert line == rendered[pairingIndex];
      if line.None? {
        return Console(lines, true);
      }
      EmitFrom(rendered, pairingIndex);
      lines := lines + [line.value];
      pairingIndex := pairingIndex + 1;
    }
    out := Console(lines, false);
  }

  /** `pairingsCommand`, with the fetched matches, participants and phases as inputs. */
  method PairingsCommand(tournamentId: string, matches: seq<Match>, participants: seq<Player>, phases: seq<Phase>)
    returns (out: Console)
    ensures out == PairingsOutput(tournamentId, matches, participants, phases)
  {
    var stdout := [FetchNotice(tournamentId)];
    var participantMap := GetParticipantInfo(participants);
    if |matches| == 0 {
      return Console(stdout + [NoPairingsMessage], false);
    }
    var title := PairingTitle(matches[0], phases);
    stdout := stdout + [Banner(title)];
    var byeMatches, regularMatches := SplitMatches(matches);
    ghost var head := Console([FetchNotice(tournamentId), Banner(title)], false);
    ghost var byeOut := Emit(ByeLines(byeMatches, participantMap));
    ghost var pairingOut := Emit(PairingLines(regularMatches, participantMap));
    assert PairingsOutput(tournamentId, matches, participants, phases) == Then(Then(head, byeOut), pairingOut);
    out := PrintByes(stdout, byeMatches, participantMap);
    assert out == Then(head, byeOut);
    if !out.failed {
      out := PrintPairings(out.stdout, regularMatches, participantMap);
    }
  }
}
