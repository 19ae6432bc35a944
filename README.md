# melee-discord-helper report builders, in Dafny

The melee-discord-helper CLI fetches a tournament from the Melee.gg API and prints three
reports in Discord markdown.

- **pairings**: a heading taken from the tournament's phases, the BYEs of the current round,
  then every regular pairing numbered with a glyph.
- **standings**: a heading naming the round, then a fixed-width table of the standings sorted
  by rank, inside a code fence.
- **participants**: one line per registered player, with their Discord handle and deck.

This project models the logic of the three reports. The fetched JSON is given as typed records,
and the output is the sequence of lines the command writes to standard output. Each report has
two forms:

- a specification function (`PairingsOutput`, `StandingsOutput`, `ParticipantsOutput`);
- a method that builds the output step by step as the source does.

Each method is proved equal to its function, and the properties the reports promise are proved
about the functions.

Modules and files:

- `js.dfy` (`Js`): JavaScript values as the reports use them.
  - `Field<T>` is a three-state field: `Absent`, `Null` or `Present`. It is needed because
    `ByeReason !== null` holds for a missing field.
  - `TruthyString` and `TruthyNumber` are truthiness; `StringOr` and `NumberOr` are `||`.
  - `FieldText` is a template-string rendering, `IntToString` is `Number.prototype.toString`,
    and `PadEnd` and `Repeat` are the string methods of the same names.
  - `JsLength` is `String.prototype.length`, which counts UTF-16 code units. A Dafny `char`
    is a whole Unicode scalar value, so a character outside the Basic Multilingual Plane
    (an emoji, say) counts two. Column widths and `padEnd` are measured this way.
- `identity.dfy` (`Identity`): player and decklist records, shared by all three reports.
  - The strip of a trailing `#<digits>` discriminator is specified directly on strings.
  - It also holds the handle fallback chain and the two kinds of deck (participant-level and
    match-level).
- `output.dfy` (`Output`): standard output as a list of lines, and what happens when a line
  throws: the lines printed so far stay, and the command fails.
- `pairings.dfy` (`Pairings`):
  - the participant map built by `getParticipantInfo`;
  - `getNumberEmoji`, and the heading derived from the phases;
  - the split of matches into BYEs, regular pairings and dropped matches;
  - the BYE and pairing lines, and `pairingsCommand`.
- `standings.dfy` (`Standings`):
  - the round phrase, and the stable sort by `Rank || Position || 999` as an in-place insertion
    sort on an array;
  - the table rows and `W-L[-D]` records;
  - the column widths, computed into an array and padded in place;
  - `formatRow`, the separator and the fenced table, and `standingsCommand`.
- `participants.dfy` (`Participants`): the per-player line, the `forEach` over the players and
  `participantsCommand`.

Behaviour of the code worth knowing:

- A handle can be empty. The code strips `#\d+$` from any truthy `DiscordUsername`, so a
  username such as `#12` gives the empty handle (`Identity.HandleCanBeEmpty`).
- A BYE or pairing whose competitor has no `Team.Players[0]` throws. The lines printed before
  it stay on standard output, and the command then fails. `Output.Console` records this.
- Each command prints its "Fetching …" notice before it knows whether there is any data. So an
  empty pairings or participants report is that notice followed by the "no … found" message.
  The standings report has no notice.
- The pairings heading reads `Phases` from the top level of the tournament response, while
  the standings heading reads `Content.NumberOfRounds`. Both are inputs here (`phases`,
  `numberOfRounds`), and a missing response is an empty list or an `Absent` field.

## Model

| member | source | states |
|---|---|---|
| Js.NatToString | commands/standings.js:96 | The decimal rendering of a non-negative integer is non-empty, all digits, and has no leading zero unless it is "0". |
| Js.DigitsValueOfNatToString | commands/standings.js:96 | Reading the digits of the rendering back gives the number. |
| Js.NatToStringInjective | commands/standings.js:96 | Two non-negative integers render the same exactly when they are equal. |
| Js.IntToString | commands/standings.js:74-77 | A non-negative integer renders as digits only; a negative one as `-` followed by digits. |
| Js.IntToStringInjective | commands/standings.js:74-77 | Two integers render the same exactly when they are equal. |
| Js.Repeat | commands/standings.js:134 | `c.repeat(n)` has length n and every character is c. |
| Js.JsLengthAppend | commands/standings.js:107 | The JavaScript length of a concatenation is the sum of the lengths. |
| Js.JsLengthBounds | commands/standings.js:107 | A string's JavaScript length is between one and two code units per character, and one per character inside the Basic Multilingual Plane. |
| Js.RepeatJsLength | commands/standings.js:134 | A repeated dash or space is n code units long. |
| Js.PadEnd | commands/standings.js:122 | `padEnd(w)` keeps the string as a prefix and pads with spaces only. |
| Js.PadEndJsLength | commands/standings.js:122 | A padded string is max(length, w) UTF-16 code units long, and gains at least one character when it was shorter than w. |
| Js.PadEndCountsCodeUnits | commands/standings.js:122 | An emoji takes two of the width: padding it to 3 adds one space. |
| Identity.StripDiscriminator | commands/pairings.js:15 | Where the string ends in `#` and one or more digits, the result is everything before that `#`; otherwise the string is unchanged. |
| Identity.DiscriminatorUnique | commands/pairings.js:15 | A string ends in at most one `#<digits>` suffix, so the strip is well defined. |
| Identity.StripExamples | commands/pairings.js:15 | "Foo#1234" gives "Foo" and "A#1#2" gives "A#1"; "Foo#12bar" and "Foo#" are unchanged. |
| Identity.Handle | commands/participants.js:17-19 | A truthy DiscordUsername gives that name with its discriminator stripped, else a truthy Username, else "Unknown". |
| Identity.HandleCanBeEmpty | commands/participants.js:17-19 | A DiscordUsername of "#12" gives the empty handle. |
| Identity.ParticipantDeck | commands/participants.js:22-26 | There is a deck exactly when the player has a decklist. Its name is the first decklist's truthy AdminGivenName, else its truthy DecklistName, else "Unknown Deck" (never empty), and its url is the decklist page of that decklist's Guid. |
| Identity.MatchDeck | commands/pairings.js:134-139 | A match-level deck is named by its DecklistName as a template string renders it ("undefined" when missing, "null" when null) and links to the decklist page of its DecklistId. |
| Output.EmitPrints | commands/pairings.js:126-208 | Printing line by line writes the lines in order up to the first that throws, and fails exactly when one throws. |
| Output.Emit | commands/pairings.js:126-208 | Printing lines one `console.log` at a time; described by EmitPrints, EmitAfter and EmitTwoGroups. |
| Output.EmitAfter | commands/pairings.js:126-151 | Lines printed earlier stay first; the new lines follow in order, and the output fails exactly when one of them throws, ending just before the first that does. |
| Output.EmitTwoGroups | commands/pairings.js:126-208 | After the heading, every line of the first group precedes every line of the second, each group in order; on a throw, the output ends just before the first line that throws. |
| Output.EmitFrom | commands/pairings.js:126-151 | Printing the first line and then the rest equals printing all of them. |
| Output.Banner | commands/pairings.js:107 | The `:loudspeaker: **title** :loudspeaker:` heading line of the pairings and standings reports; described by PairingsHeading and StandingsTable. |
| Pairings.FetchNotice | commands/pairings.js:58-60 | The "Fetching current pairings" notice printed first; described by NoPairings and PairingsHeading. |
| Pairings.InfoOf | commands/pairings.js:13-30 | The handle and participant-level deck recorded for one player; described by ParticipantMapLastWins. |
| Pairings.ParticipantMapOf | commands/pairings.js:8-36 | The map after one `set` per player in list order; described by ParticipantMapKeys and ParticipantMapLastWins. |
| Pairings.ParticipantMapKeys | commands/pairings.js:12-33 | The map has an entry for exactly the IDs of the listed players. |
| Pairings.ParticipantMapLastWins | commands/pairings.js:28-31 | A player's entry is that player's handle and deck when no later player has the same ID (the last `set` wins). |
| Pairings.GetParticipantInfo | commands/pairings.js:8-36 | The `forEach` of `set` calls builds exactly the participant map of the list. |
| Pairings.NumberEmoji | commands/pairings.js:39-53 | Positions 0 to 9 get the ten named glyphs; position i from 10 on gets `:` + (i + 1) + `:`. |
| Pairings.NumberEmojiInjective | commands/pairings.js:39-53 | Different positions never get the same glyph. |
| Pairings.PairingTitle | commands/pairings.js:81-105 | The heading is never empty; its three cases are stated by PairingTitleWithoutPhase, PairingTitleOfPhase and PairingTitleBracket. |
| Pairings.PhaseIndexOf | commands/pairings.js:86-92 | `find` followed by `indexOf` gives the first phase with the ID, and there is none exactly when no phase has it. |
| Pairings.RoundsText | commands/pairings.js:99-101 | `Rounds.length` of the phase, or "?" without a round list; described by PairingTitleOfPhase. |
| Pairings.PairingTitleWithoutPhase | commands/pairings.js:82-86 | Without a truthy PhaseId, or when no phase has it, the heading is "Round N Pairings" with N = RoundNumber \|\| 1. |
| Pairings.PairingTitleOfPhase | commands/pairings.js:91-103 | When the first phase with the ID is at index i other than 1, the heading is "Round N of R Pairings", with R that phase's round count or "?". |
| Pairings.PairingTitleBracket | commands/pairings.js:91-96 | The heading is "Double Elimination Bracket" exactly when the match's phase is found first at index 1. |
| Pairings.IsBye | commands/pairings.js:113-117 | A BYE has one competitor and a ByeReason that is not null; described by ByesAreByes and Partition. |
| Pairings.IsRegular | commands/pairings.js:120 | A regular pairing has two competitors; described by RegularsAreRegular and Partition. |
| Pairings.ByeAndRegularDisjoint | commands/pairings.js:113-123 | No match is both a BYE and a regular pairing. |
| Pairings.ByesAreByes | commands/pairings.js:114-119 | Every match in the BYE list has one competitor and a ByeReason that is not null. |
| Pairings.RegularsAreRegular | commands/pairings.js:120-121 | Every match in the regular list has two competitors. |
| Pairings.DroppedAreNeither | commands/pairings.js:113-123 | Every dropped match is neither a BYE nor a regular pairing. |
| Pairings.Byes | commands/pairings.js:113-119 | The BYE matches in input order; described by ByesAreByes, Partition and PartitionCounts. |
| Pairings.Regulars | commands/pairings.js:120-122 | The regular pairings in input order; described by RegularsAreRegular, Partition and PartitionCounts. |
| Pairings.Dropped | commands/pairings.js:113-123 | The matches neither branch pushes, which are never printed; described by DroppedAreNeither, Partition and PartitionCounts. |
| Pairings.PartitionCounts | commands/pairings.js:113-123 | BYEs, regular pairings and dropped matches together hold every input match exactly as often as the input does. |
| Pairings.Partition | commands/pairings.js:113-123 | A match is in the BYE list exactly when it is an input BYE, in the regular list exactly when it is an input regular pairing, and dropped otherwise. |
| Pairings.SplitMatches | commands/pairings.js:110-123 | The classifying loop pushes onto the two arrays exactly the BYEs and the regular pairings, in input order. |
| Pairings.DeckFor | commands/pairings.js:132-144 | The deck shown for one competitor; described by DeckPrecedence. |
| Pairings.DeckPrecedence | commands/pairings.js:132-144 | A match-level decklist wins, giving its DecklistName and the page of its DecklistId. Without one, the deck is that of the last participant with the player's ID, and none when no participant has it. |
| Pairings.DeckDisplay | commands/pairings.js:146-148 | The deck in parentheses; described by DeckDisplayCases. |
| Pairings.DeckDisplayCases | commands/pairings.js:146-148 | Without a deck the display is "(No deck info)"; with one it is `([name](url))`. |
| Pairings.PlayerInfo | commands/pairings.js:127-149 | `@handle (deck)` for one competitor, or a throw without a player; described by ByeLineShape and PairingLineShape. |
| Pairings.ByeLine | commands/pairings.js:126-151 | The line of one BYE, or a throw; described by ByeLineShape. |
| Pairings.PairingLine | commands/pairings.js:155-207 | The line of one regular pairing, or a throw; described by PairingLineShape. |
| Pairings.ByeLineShape | commands/pairings.js:126-151 | A BYE line exists exactly when the first competitor has a player. It is the check mark, `@handle `, that competitor's deck display (match-level deck first, then the participant map), and ` - BYE`. |
| Pairings.PairingLineShape | commands/pairings.js:155-206 | A pairing line exists exactly when both competitors have a player. It is the glyph of its position, then `@handle ` and the deck display of the first player, ` vs `, and `@handle ` and the deck display of the second; it ends in `)`. |
| Pairings.ByeLines | commands/pairings.js:126-151 | There is one BYE line per BYE. |
| Pairings.PairingLines | commands/pairings.js:154-208 | There is one pairing line per regular pairing. |
| Pairings.PairingsOutput | commands/pairings.js:56-213 | Everything the pairings command prints; described by NoPairings, PairingsHeading, PairingsOrder and PairingsFailure. |
| Pairings.NoPairings | commands/pairings.js:58-78 | With no matches, the output is the fetch notice and the "no pairings" message, with no heading and no failure. |
| Pairings.PairingsHeading | commands/pairings.js:58-107 | With matches, the output starts with the fetch notice and the heading. |
| Pairings.PairingsOrder | commands/pairings.js:125-208 | After the heading come the BYE lines in input order, then the pairing lines in input order; the k-th regular pairing gets glyph k. When a line throws, the output ends just before it. |
| Pairings.PairingsFailure | commands/pairings.js:125-212 | The command fails exactly when some BYE or pairing line throws, and then stops at the first such line; otherwise it prints two lines plus one per BYE and one per pairing. |
| Pairings.PrintByes | commands/pairings.js:126-151 | The BYE loop appends the BYE lines in order and stops at the first that throws. |
| Pairings.PrintPairings | commands/pairings.js:154-208 | The pairing loop numbers pairings from 0, appends their lines in order, and stops at the first that throws. |
| Pairings.PairingsCommand | commands/pairings.js:56-213 | The command prints exactly what the report specification prints. |
| Standings.RoundInfo | commands/standings.js:21-35 | "Current" exactly when the first standing's RoundNumber is not truthy. Otherwise "After Round N of T" when NumberOfRounds is truthy, and "After Round N" when it is not. |
| Standings.StandingsTitle | commands/standings.js:37-39 | "Standings " followed by the round phrase; described by StandingsTable. |
| Standings.SortKey | commands/standings.js:43 | `Rank \|\| Position \|\| 999`; described by SortByKeySorted, SortByKeyStable and RankCellAndKey. |
| Standings.SortByKey | commands/standings.js:42-44 | The stable sort by `Rank \|\| Position \|\| 999`; described by SortByKeySorted, SortByKeyPermutation and SortByKeyStable. |
| Standings.InsertLength | commands/standings.js:42-44 | Inserting one standing lengthens the list by one. |
| Standings.InsertSorted | commands/standings.js:42-44 | Inserting into a list sorted by key keeps it sorted. |
| Standings.InsertElements | commands/standings.js:42-44 | Inserting adds exactly the new standing. |
| Standings.InsertWithKey | commands/standings.js:42-44 | Inserting keeps the order among standings of each key and puts the new one after those with its own key. |
| Standings.SortByKeySorted | commands/standings.js:42-44 | After the sort, `Rank \|\| Position \|\| 999` never decreases. |
| Standings.SortByKeyPermutation | commands/standings.js:42-44 | The sort keeps every standing exactly as often as it occurs. |
| Standings.SortByKeyStable | commands/standings.js:42-44 | Standings with equal keys keep their input order, as the stable `Array.prototype.sort` does. |
| Standings.SortByKeyLength | commands/standings.js:42-44 | The sort keeps the number of standings. |
| Standings.InsertAt | commands/standings.js:42-44 | Insertion puts the standing right after the last one whose key is not larger. |
| Standings.ShiftGreater | commands/standings.js:42-44 | The inner loop moves the larger-keyed elements one place right and stops at the gap after the last element that is not larger. |
| Standings.ShiftedIsInsertion | commands/standings.js:42-44 | After the shift and the drop into the gap, the array prefix is the old prefix with the element inserted, and the rest is unchanged. |
| Standings.InsertInPlace | commands/standings.js:42-44 | One step of the in-place sort turns the array prefix into the insertion of the next element and leaves the rest alone. |
| Standings.SortStandings | commands/standings.js:42-44 | Sorting the fetched array in place leaves exactly the stable sort by key. |
| Standings.RankCell | commands/standings.js:55 | The rank cell; described by RankCellAndKey. |
| Standings.RankCellAndKey | commands/standings.js:55 | The rank cell shows the sort key when Rank or Position is truthy, and the 1-based row number otherwise. |
| Standings.PlayerName | commands/standings.js:57-66 | The name cell after `@`; described by PlayerNameAndHandle. |
| Standings.PlayerNameAndHandle | commands/standings.js:57-66 | The name is the stripped DiscordUsername when it is truthy, as in the other reports. Otherwise it is DisplayName, else Username, else "Unknown Player"; it is "Unknown Player" without a player. |
| Standings.Record | commands/standings.js:69-88 | The `W-L[-D]` record; described by RecordLayout, RecordPrefixAgrees and RecordInjective. |
| Standings.RecordLayout | commands/standings.js:73-88 | For any integer counts, a record is the wins, `-`, the losses, and `-` plus the draws exactly when the draws are positive; a negative count keeps its own minus sign. |
| Standings.RecordPrefixAgrees | commands/standings.js:73-88 | For any integer counts, equal records render the same wins and the same losses, and agree on whether draws are shown. |
| Standings.RecordInjective | commands/standings.js:69-88 | For any integer counts, two records are equal exactly when their wins and losses are equal and their draws are equal or both not positive (no draws shown). |
| Standings.Row | commands/standings.js:94-101 | The five cells of one standing's row; tied to the sorted places by DataRowAt and StandingsTable. |
| Standings.DataRows | commands/standings.js:54-102 | There is one five-cell row per standing. |
| Standings.DataRowAt | commands/standings.js:54-102 | The row at place i is the row of the i-th sorted standing, numbered i. |
| Standings.TableData | commands/standings.js:47-102 | The table has the header row and one row per standing, each with five cells. |
| Standings.BuildTable | commands/standings.js:47-102 | The `push` loop builds exactly the header row followed by the rows of the sorted standings. |
| Standings.MaxCellLength | commands/standings.js:105-109 | A column's longest cell length, in UTF-16 code units, bounds every cell of the column and is attained by one of them. |
| Standings.Widths | commands/standings.js:105-115 | There is one width per column. |
| Standings.CellsFit | commands/standings.js:105-115 | Every cell is strictly shorter than its column (in UTF-16 code units), and in each column some cell is exactly the padding short of it. |
| Standings.ColumnWidths | commands/standings.js:105-115 | The `map` and the in-place padding loop leave the array holding exactly the widths. |
| Standings.Separators | commands/standings.js:134 | There is one separator cell per column. |
| Standings.DataLines | commands/standings.js:138-140 | There is one formatted line per data row. |
| Standings.FormatRow | commands/standings.js:118-125 | `formatRow`; described by FormatRowLength and CellAt. |
| Standings.FormatRowLength | commands/standings.js:118-125 | A formatted row whose cells fit is exactly as long as the sum of the widths, in UTF-16 code units. |
| Standings.CellAt | commands/standings.js:118-125 | In a formatted row, column c starts the widths of the earlier columns in (in UTF-16 code units) and shows its cell whole, followed by a space (no truncation). |
| Standings.ShowsPaddedCell | commands/standings.js:122 | A padded cell shows whole where it starts, followed by a space. |
| Standings.SeparatorRow | commands/standings.js:133-135 | The separator line is all `-` and as long as the table is wide. |
| Standings.DataLineAt | commands/standings.js:138-140 | The i-th data line is the formatted i-th data row. |
| Standings.TableLineOf | commands/standings.js:127-142 | The header row is printed on line 1 of the table, and data row r on line r + 2. |
| Standings.FormatTable | commands/standings.js:127-142 | The fence, header row, separator row, data rows and closing fence; described by TableLineOf, FrameOf and CellsOf. |
| Standings.Table | commands/standings.js:104-142 | The table formatted to the column widths of its own data; described by TableFrame and TableCells. |
| Standings.FrameOf | commands/standings.js:127-142 | For widths the cells fit: fences first and last, every line between them the sum of the widths long in UTF-16 code units, and the separator all `-`. |
| Standings.CellsOf | commands/standings.js:127-142 | For widths the cells fit, every cell of every row is shown whole at its column's start, followed by a space. |
| Standings.TableFrame | commands/standings.js:104-142 | The printed table has fences first and last, every line between them the sum of the widths long in UTF-16 code units, and the separator all `-`. |
| Standings.TableCells | commands/standings.js:104-142 | In the printed table, every header cell and every data cell is shown whole at its column's start, followed by a space. |
| Standings.StandingsOutput | commands/standings.js:4-147 | Everything the standings command prints; described by StandingsTable, TableFrame and TableCells. |
| Standings.StandingsTable | commands/standings.js:37-142 | With standings, the output is the heading and then the table of the sorted standings. The row for sorted place i is that standing's row, numbered i. |
| Standings.PrintRows | commands/standings.js:138-140 | The data-row loop appends the formatted data rows in order. |
| Standings.PrintFormatted | commands/standings.js:128-142 | The printing appends the fence, the header, the separator, the data lines and the fence. |
| Standings.PrintTable | commands/standings.js:104-142 | Computing the widths and printing appends exactly the table. |
| Standings.StandingsCommand | commands/standings.js:4-147 | The command prints exactly what the report specification prints, and leaves the fetched array sorted. |
| Participants.FetchNotice | commands/participants.js:6 | The "Fetching participants" notice printed first; described by ParticipantsReport. |
| Participants.DeckText | commands/participants.js:22-31 | The deck part of a line; described by ParticipantLineShape. |
| Participants.ParticipantLine | commands/participants.js:17-31 | One player's line; described by ParticipantLineShape. |
| Participants.ParticipantsOutput | commands/participants.js:6-32 | Everything the participants command prints; described by ParticipantsReport. |
| Participants.ParticipantLines | commands/participants.js:15-32 | There is one line per player. |
| Participants.ParticipantLineAt | commands/participants.js:15-32 | The i-th line is that of the i-th player, in API order. |
| Participants.ParticipantLineShape | commands/participants.js:17-31 | A line is `- @`, the handle and ` - `, followed by `[name](url)` of the player's deck when they have a decklist, and by "No decklist submitted" otherwise; it ends in `)` exactly when there is a decklist. |
| Participants.ParticipantsReport | commands/participants.js:6-32 | With no players: the notice and "No participants found for this tournament.". Otherwise: the notice, the heading, then one line per player in API order. |
| Participants.FormatParticipant | commands/participants.js:17-31 | The `forEach` body prints exactly the player's line. |
| Participants.PrintParticipants | commands/participants.js:15-32 | The `forEach` appends the players' lines in order. |
| Participants.ParticipantsCommand | commands/participants.js:4-37 | The command prints exactly what the report specification prints. |

## Left out

- Fetching (`utils/api.js`: HTTPS, Basic authentication, JSON parsing, status checks) and the
  CLI entry point (`melee-discord-helper.js`: dotenv, argument routing, usage text). The fetched
  data is an input of each command.
- `Promise.all` and async/await: the three fetches of a command are inputs already in hand, so
  their order does not matter.
- The `catch` blocks' `console.error` and `process.exit(1)`: a failure is the `failed` flag of
  `Output.Console`, and the text on standard error is not modelled.
- The OMW cell: `(omw * 100).toFixed(1)` is floating-point rounding, so `omwPercent` is a given
  string to which the model appends `%`.
- JSON numbers are integers here: fractional values, NaN and values beyond exact integer range
  are not modelled. Numeric fields are `Field<int>`, so a non-number in a numeric field is not
  modelled either.
- A `null` element inside a JSON array (for example a `null` first decklist) is not modelled:
  arrays hold records, and a missing array is the empty one wherever the code treats the two
  alike.
- The regular-expression engine: the strip of `#\d+$` is specified directly on strings.
- The sorting algorithm of the JavaScript engine: only its result, which a stable sort
  determines, is modelled. The model computes it with an insertion sort.
- Unpaired UTF-16 surrogates: a Dafny string holds whole Unicode scalar values, so a
  JavaScript string with a lone surrogate cannot be given. Every other string is measured in
  UTF-16 code units, as `length` and `padEnd` measure it.
