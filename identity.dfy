/** The tournament records the commands read, and the rules every command uses to
    turn a player into a chat handle and a decklist into a deck name and link. */
module Identity {
  import opened Js

  /** A decklist as the participant list reports it (`Decklists[i]` of a player). */
  datatype ParticipantDecklist = ParticipantDecklist(
    guid: Field<string>,
    adminGivenName: Field<string>,
    decklistName: Field<string>)

  /** A player. `decklists` is the participant-level list; a missing list is `[]`,
      which every command treats the same way. */
  datatype Player = Player(
    id: Field<int>,
    username: Field<string>,
    displayName: Field<string>,
    discordUsername: Field<string>,
    decklists: seq<ParticipantDecklist>)

  /** A decklist attached to one competitor of one match. */
  datatype MatchDecklist = MatchDecklist(decklistId: Field<string>, decklistName: Field<string>)

  /** A deck as rendered: a name and the link to its page. */
  datatype DeckInfo = DeckInfo(name: string, url: string)

  const DeckUrlPrefix := "https://melee.gg/Decklist/View/"

  // ---------------------------------------------------------------------------
  // The `#\d+$` discriminator of a Discord handle.

  /** `s[k..]` is a `#` followed by one or more digits running to the end of `s`. */
  predicate DiscriminatorAt(s: string, k: int) {
    0 <= k && k + 1 < |s| && s[k] == '#' && forall i :: k < i < |s| ==> IsDigit(s[i])
  }

  /** Where the run of digits that ends `s` begins. */
  function TrailingDigitsStart(s: string): (j: nat)
    ensures j <= |s|
    ensures forall i :: j <= i < |s| ==> IsDigit(s[i])
    ensures j > 0 ==> !IsDigit(s[j - 1])
  {
    if s == [] || !IsDigit(s[|s| - 1]) then |s| else TrailingDigitsStart(s[..|s| - 1])
  }

  /** `s.replace(/#\d+$/, "")`: drops the discriminator when `s` ends with one,
      and returns `s` unchanged otherwise. */
  function StripDiscriminator(s: string): (r: string)
    ensures forall k :: DiscriminatorAt(s, k) ==> r == s[..k]
    ensures (exists k :: DiscriminatorAt(s, k)) || r == s
  {
    var j := TrailingDigitsStart(s);
    if 1 <= j < |s| && s[j - 1] == '#' then
      assert DiscriminatorAt(s, j - 1);
      s[..j - 1]
    else
      s
  }

  /** A string has at most one discriminator, so "the" match of `#\d+$` is well defined. */
  lemma DiscriminatorUnique(s: string, k1: int, k2: int)
    requires DiscriminatorAt(s, k1) && DiscriminatorAt(s, k2)
    ensures k1 == k2
  {
  }

  lemma StripExamples()
    ensures StripDiscriminator("Foo#1234") == "Foo"
    ensures StripDiscriminator("Alice#0001") == "Alice"
    ensures StripDiscriminator("Foo#12bar") == "Foo#12bar"
    ensures StripDiscriminator("Foo#") == "Foo#"
    ensures StripDiscriminator("A#1#2") == "A#1"
  {
    assert DiscriminatorAt("Foo#1234", 3);
    assert DiscriminatorAt("Alice#0001", 5);
    assert DiscriminatorAt("A#1#2", 3);
    assert !IsDigit("Foo#12bar"[8]);
  }

  // ---------------------------------------------------------------------------
  // Handles and decks.

  /** The handle the participants and pairings reports print after `@`:
      the Discord username without its discriminator, else the username, else "Unknown". */
  function Handle(p: Player): (h: string)
    ensures TruthyString(p.discordUsername) ==>
      (forall k :: DiscriminatorAt(p.discordUsername.value, k) ==> h == p.discordUsername.value[..k])
    ensures TruthyString(p.discordUsername) && (forall k :: !DiscriminatorAt(p.discordUsername.value, k)) ==>
      h == p.discordUsername.value
    ensures !TruthyString(p.discordUsername) && TruthyString(p.username) ==> h == p.username.value
    ensures !TruthyString(p.discordUsername) && !TruthyString(p.username) ==> h == "Unknown"
  {
    if TruthyString(p.discordUsername) then StripDiscriminator(p.discordUsername.value)
    else StringOr(p.username, "Unknown")
  }

  /** A Discord username that is only a discriminator leaves an empty handle. */
  lemma HandleCanBeEmpty()
    ensures Handle(Player(Absent, Absent, Absent, Present("#12"), [])) == ""
  {
    assert DiscriminatorAt("#12", 0);
  }

  /** The participant-level deck: taken from the first decklist, named by
      `AdminGivenName || DecklistName || "Unknown Deck"` and linked by `Guid`; none without decklists. */
  function ParticipantDeck(p: Player): (d: Option<DeckInfo>)
    ensures d.Some? <==> |p.decklists| > 0
    ensures d.Some? ==> d.value.name != ""
    ensures d.Some? && TruthyString(p.decklists[0].adminGivenName) ==>
      d.value.name == p.decklists[0].adminGivenName.value
    ensures d.Some? && !TruthyString(p.decklists[0].adminGivenName) && TruthyString(p.decklists[0].decklistName) ==>
      d.value.name == p.decklists[0].decklistName.value
    ensures d.Some? && !TruthyString(p.decklists[0].adminGivenName) && !TruthyString(p.decklists[0].decklistName) ==>
      d.value.name == "Unknown Deck"
    ensures d.Some? ==> d.value.url == DeckUrlPrefix + FieldText(p.decklists[0].guid)
  {
    if |p.decklists| > 0 then
      var dl := p.decklists[0];
      Some(DeckInfo(StringOr(dl.adminGivenName, StringOr(dl.decklistName, "Unknown Deck")),
                    DeckUrlPrefix + FieldText(dl.guid)))
    else
      None
  }

  /** The deck of a match-level decklist: its raw `DecklistName` (rendered as a
      template string would, so a missing name reads "undefined") and a link by `DecklistId`. */
  function MatchDeck(dl: MatchDecklist): (d: DeckInfo)
    ensures dl.decklistName.Present? ==> d.name == dl.decklistName.value
    ensures dl.decklistName.Absent? ==> d.name == "undefined"
    ensures dl.decklistName.Null? ==> d.name == "null"
    ensures d.url == DeckUrlPrefix + FieldText(dl.decklistId)
  {
    DeckInfo(FieldText(dl.decklistName), DeckUrlPrefix + FieldText(dl.decklistId))
  }
}
