/** The participants report: one line per registered player with their handle and
    the deck of their first decklist. */
module Participants {
  import opened Js
  import opened Identity

  const NoParticipantsMessage := "No participants found for this tournament."

  const ParticipantsTitle := ":loudspeaker: **Tournament participants:** :loudspeaker:\n"

  function FetchNotice(tournamentId: string): string {
    "Fetching participants for tournament " + tournamentId + "...\n"
  }

  /** The deck part of a line: a link to the deck, or a note that none was submitted. */
  function DeckText(deck: Option<DeckInfo>): string {
    match deck
    case Some(info) => "[" + info.name + "](" + info.url + ")"
    case None => "No decklist submitted"
  }

  /** `- @handle - deck` for one player. */
  function ParticipantLine(p: Player): string {
    "- @" + Handle(p) + " - " + DeckText(ParticipantDeck(p))
  }

  /** The lines of the `forEach` over the players, in order. */
  function ParticipantLines(players: seq<Player>): (lines: seq<string>)
    ensures |lines| == |players|
  {
    if players == [] then []
    else ParticipantLines(players[..|players| - 1]) + [ParticipantLine(players[|players| - 1])]
  }

  /** Everything `participantsCommand` prints, given the fetched participant list
      (a missing list or response is `[]`). */
  function ParticipantsOutput(tournamentId: string, players: seq<Player>): seq<string> {
    if players == [] then [FetchNotice(tournamentId), NoParticipantsMessage]
    else [FetchNotice(tournamentId), ParticipantsTitle] + ParticipantLines(players)
  }

  /** The line of the player at place `i` is that player's line. */
  lemma {:induction false} ParticipantLineAt(players: seq<Player>, i: nat)
    requires i < |players|
    ensures ParticipantLines(players)[i] == ParticipantLine(players[i])
  {
    if i < |players| - 1 {
      ParticipantLineAt(players[..|players| - 1], i);
    }
  }

  lemma ParticipantLinesGrow(players: seq<Player>, n: nat)
    requires n < |players|
    ensures ParticipantLines(players[..n + 1]) == ParticipantLines(players[..n]) + [ParticipantLine(players[n])]
  {
    assert players[..n + 1][..n] == players[..n];
  }

  lemma AppendOne<T>(printed: seq<T>, lines: seq<T>, line: T)
    ensures printed + lines + [line] == printed + (lines + [line])
  {
  }

  /** A line starts with `- @`, the handle and ` - `; it continues with the link to the
      player's deck when they have a decklist, and with "No decklist submitted" otherwise. */
  lemma ParticipantLineShape(p: Player)
    ensures var line, prefix := ParticipantLine(p), "- @" + Handle(p) + " - ";
      && |prefix| < |line| && line[..|prefix|] == prefix
      && (line[|line| - 1] == ')' <==> |p.decklists| > 0)
      && (|p.decklists| > 0 ==>
            line == prefix + "[" + ParticipantDeck(p).value.name + "](" + ParticipantDeck(p).value.url + ")")
      && (|p.decklists| == 0 ==> line == prefix + "No decklist submitted")
  {
    var line, prefix := ParticipantLine(p), "- @" + Handle(p) + " - ";
    assert line == prefix + DeckText(ParticipantDeck(p));
    assert line[..|prefix|] == prefix;
  }

  /** With players, the report is the notice and the heading, then one line per player in
      list order; without, the notice and the "no participants" message. */
  lemma ParticipantsReport(tournamentId: string, players: seq<Player>)
    ensures var out := ParticipantsOutput(tournamentId, players);
      && (players == [] ==> out == [FetchNotice(tournamentId), NoParticipantsMessage])
      && (players != [] ==>
            && |out| == |players| + 2
            && out[..2] == [FetchNotice(tournamentId), ParticipantsTitle]
            && forall i :: 0 <= i < |players| ==> out[i + 2] == ParticipantLine(players[i]))
  {
    if players != [] {
      forall i | 0 <= i < |players| ensures ParticipantsOutput(tournamentId, players)[i + 2] == ParticipantLine(players[i]) {
        ParticipantLineAt(players, i);
      }
    }
  }

  /** The body of the `forEach` callback: the line for one player. */
  method FormatParticipant(player: Player) returns (line: string)
    ensures line == ParticipantLine(player)
  {
    var discordUsername := Handle(player);
    if |player.decklists| > 0 {
      var decklist := player.decklists[0];
      var deckName := StringOr(decklist.adminGivenName, StringOr(decklist.decklistName, "Unknown Deck"));
      var deckUrl := DeckUrlPrefix + FieldText(decklist.guid);
      line := "- @" + discordUsername + " - " + ("[" + deckName + "](" + deckUrl + ")");
    } else {
      line := "- @" + discordUsername + " - " + "No decklist submitted";
    }
  }

  /** The `forEach` over the players: appends one line per player. */
  method PrintParticipants(stdout: seq<string>, players: seq<Player>) returns (out: seq<string>)
    ensures out == stdout + ParticipantLines(players)
  {
    out := stdout;
    var n := 0;
    while n < |players|
      invariant n <= |players|
      invariant out == stdout + ParticipantLines(players[..n])
    {
      ParticipantLinesGrow(players, n);
      var line := FormatParticipant(players[n]);
      AppendOne(stdout, ParticipantLines(players[..n]), line);
      out := out + [line];
      n := n + 1;
    }
    assert players[..n] == players;
  }

  /** `participantsCommand`, with the fetched participant list as input. */
  method ParticipantsCommand(tournamentId: string, players: seq<Player>) returns (stdout: seq<string>)
    ensures stdout == ParticipantsOutput(tournamentId, players)
  {
    stdout := [FetchNotice(tournamentId)];
    if |players| == 0 {
      return stdout + [NoParticipantsMessage];
    }
    stdout := stdout + [ParticipantsTitle];
    stdout := PrintParticipants(stdout, players);
  }
}
