# GuiaMendozaBot decision core in Dafny

GuiaMendozaBot (`bot.py`) is a Telegram guide to Mendoza. This project models
the parts of it that decide what to answer. Sending the answers is not modelled.

- **Place lookup**: `buscar_lugar_en_json` resolves a free-text query against
  the places file. It is an insertion-ordered dict from keys to records. Three
  passes run in order, and the first that succeeds decides:
  - a direct substring pass over the keys and the lower-cased names;
  - a fuzzy pass (`difflib.get_close_matches`, one result, cutoff 0.6);
  - a pass that needs every word of a key to be in the query.
- **Free-text routing** (`responder_texto`): the text is lower-cased and
  stripped. It then takes the first branch that applies: greeting, known
  place, forecast, weather, menu, generated fallback. The place reply is
  built line by line.
- **Buttons and keyboards**: `build_main_menu`, the one-button quick menu,
  the button handler `manejar_botones` and its command twin
  `manejar_botones_fake`.

Files:
- `optional.dfy`: `Option`.
- `text.dfy`: the Python string operations the bot relies on (`lower`,
  `strip`, `split`, `in`, `join`, `title`, string `<`), with their laws.
- `places.dfy`: the knowledge base and the lookup.
- `menus.dfy`: keyboards and button presses.
- `routing.dfy`: routing, the place reply and the composed answers.

Modelling choices:
- **Knowledge base**: a sequence of `(key, record)` pairs with distinct keys,
  so "first in insertion order" can be stated. A missing places file gives
  the empty sequence.
- **Records**: the five fields the bot reads are each `Option`, `None` when
  the key is absent. The set `otherKeys` records any other keys and never
  holds one of the five names. Together
  they model Python's `if info:` test, which is false only for an empty dict.
- **Similarity**: `SequenceMatcher.ratio` is a parameter `ratio(candidate,
  query)`. `get_close_matches(texto, claves, n=1, cutoff=0.6)` keeps the keys
  whose ratio reaches 0.6. Of those it returns the one with the largest
  `(ratio, key)` tuple, the element `heapq.nlargest` picks. `real_quick_ratio`
  and `quick_ratio` are upper bounds of `ratio`, so they filter nothing extra
  and are not modelled.
- **Outside services**: the weather text, the forecast text and the
  generated description (`enriquecer_con_ia`) are fields of `Services`.
  Their replies are shown verbatim.
- **Replies**: each `reply_text` call is a `Message`: its text, its keyboard
  if any, and whether Markdown was requested.

Behaviours of the code that a reader might not expect, all modelled as written:
- Greetings are tested before the place lookup, so a greeting word anywhere
  in the text wins over a place name.
- A fuzzy tie between keys with equal ratios goes to the greatest key string
  (`heapq.nlargest` compares whole tuples), not to the first key seen.
- The `lugares` button shows seven buttons: six categories and "Menú
  principal". The `/lugares` command shows only the six.
- A category button's text is sent without a keyboard.
- Below the 0.6 cutoff the lookup can still succeed through the word pass.
  A query that holds a key always gets an answer, but not always that key:
  an earlier entry can take it first.

## Model

| member | source | states |
|---|---|---|
| Text.LowerChar | bot.py:35 | upper-case letters move by 32 code points, every other character is unchanged, and the result is never upper case |
| Text.Lower | bot.py:35 | `lower()` keeps the length and lower-cases each character in place |
| Text.LowerIdempotent | bot.py:167 | lower-casing twice is lower-casing once |
| Text.LowerKeepsSpace | bot.py:35 | lower-casing neither creates nor removes whitespace |
| Text.Contains | bot.py:38 | `needle in hay` holds exactly when the needle occurs at some position of the haystack |
| Text.ContainsTransitive | bot.py:47 | a substring of a substring is a substring |
| Text.ContainsChar | bot.py:172 | every character of a contained string is in the haystack |
| Text.EmptyContained | bot.py:38 | `"" in s` holds for every `s` |
| Text.AnyIn | bot.py:172 | `any(w in s for w in words)` holds exactly when some word of the list is in `s` |
| Text.TrimLeft | bot.py:35 | the result is a suffix, what was removed is whitespace, and it starts with no whitespace |
| Text.TrimRight | bot.py:35 | the result is a prefix, what was removed is whitespace, and it ends with no whitespace |
| Text.Strip | bot.py:35 | `strip()` leaves the input minus whitespace padding on both sides, and the result has none left at either end |
| Text.StripUnpadded | bot.py:35 | a string with no whitespace at either end is its own `strip()` |
| Text.StripIdempotent | bot.py:35 | stripping twice is stripping once |
| Text.NormalizeIdempotent | bot.py:167 | `lower().strip()` applied twice equals applying it once, so the lookup's second normalisation of `pregunta` changes nothing |
| Text.LowerOfLowered | bot.py:35 | any piece of a lower-cased string is already lower case |
| Text.WordLength | bot.py:47 | the first word ends at the first whitespace character or at the end |
| Text.Split | bot.py:47 | `split()` yields only non-empty words without whitespace |
| Text.SplitWordsOccur | bot.py:47 | every word of `split()` is a substring of the split string |
| Text.SplitBlank | bot.py:47 | a blank or empty string splits into no words |
| Text.SplitOneWord | bot.py:47 | a non-empty string without whitespace splits into itself |
| Text.SplitCons | bot.py:47 | a word followed by whitespace or by nothing is the first word, followed by the words of the rest; with `SplitSpace` and `SplitBlank` this determines `split()` |
| Text.WordLengthOf | bot.py:47 | the first word of a word followed by whitespace is exactly that word |
| Text.SplitSpace | bot.py:47 | leading whitespace adds no word |
| Text.SplitJoin | bot.py:47 | `split()` of words joined by single spaces gives back all the words, in order |
| Text.SplitParqueSanMartin | bot.py:45-47 | `"parque san martin".split()` is `["parque", "san", "martin"]`, the three words pass 3 tests |
| Text.JoinSnoc | bot.py:187 | `', '.join` of a list grown by one item is the old join, the separator and the item |
| Text.JoinContainsItems | bot.py:187 | every item is a substring of the joined text |
| Text.StrLessIrreflexive | bot.py:42 | no string is less than itself (ranking tuples by key) |
| Text.StrLessTransitive | bot.py:42 | string order is transitive |
| Text.StrLessTotal | bot.py:42 | any two different strings are ordered one way or the other |
| Text.StrLessMeaning | bot.py:42 | `a < b` holds exactly when `a` is a proper prefix of `b`, or at the first differing position `a` has the smaller code point |
| Text.PrefixShift | bot.py:42 | with equal first characters, the proper-prefix relation carries over to the tails |
| Text.DifferenceShift | bot.py:42 | with equal first characters, a first smaller difference exists exactly when it does in the tails |
| Text.TitleOnlyChangesCase | bot.py:181 | for an ASCII key, `title()` keeps the length and changes only letter case |
| Text.TitleCapitalises | bot.py:181 | for an ASCII key, `title()` upper-cases each character that does not follow a cased character and lower-cases each one that does |
| Places.Keys | bot.py:41 | `list(LUGARES_DATA.keys())` lists the keys in insertion order |
| Places.IndexOf | bot.py:44 | the position of a present key is where that key is stored, and no earlier entry has it |
| Places.ValueOfAt | bot.py:44 | `LUGARES_DATA[k]` of the key at a position is the record at that position |
| Places.FirstWhere | bot.py:37-39 | the returned index is the first one that satisfies the test; there is none exactly when no element satisfies it |
| Places.ClosestKey | bot.py:42 | no result exactly when every ratio is below 0.6; otherwise the result is a key with ratio at least 0.6 and no qualifying key outranks it by `(ratio, key)` |
| Places.OutranksMaximum | bot.py:42 | a candidate above the best so far is above every qualifying key |
| Places.Decide | bot.py:34-49 | the pass that decided names an existing position or key |
| Places.Resolve | bot.py:36-49 | any hit is an entry of the dict, its record being `LUGARES_DATA[key]` |
| Places.Lookup | bot.py:34-49 | any answer of `buscar_lugar_en_json` is an entry of the dict, with the record the dict holds under its key |
| PlacesFacts.DirectPassDecides | bot.py:35-39 | the first entry whose key or lower-cased name is in the normalised query is the answer, decided by pass 1 |
| PlacesFacts.DirectHitNeverMisses | bot.py:37-39 | a query holding some entry's key or name is answered with that entry or an earlier one |
| PlacesFacts.FirstDirectUpTo | bot.py:37-39 | below any direct hit there is a first direct hit |
| PlacesFacts.NamelessEntryMatchesAll | bot.py:38 | an entry without `nombre` (or an earlier one) is returned for every query |
| PlacesFacts.FuzzyPassDecides | bot.py:41-44 | with no direct hit and some key at ratio 0.6 or more, the answer is decided by pass 2: a qualifying key that the given key does not outrank |
| PlacesFacts.FuzzyUniqueCandidate | bot.py:41-44 | with no direct hit and exactly one key reaching 0.6, the answer is that key with `LUGARES_DATA[key]` |
| PlacesFacts.FuzzyOnlyAfterDirect | bot.py:37-44 | a fuzzy answer implies no entry was a direct hit and the key reaches the cutoff |
| PlacesFacts.WordsPassDecides | bot.py:45-48 | with passes 1 and 2 failing, the first key all of whose words are in the query is the answer |
| PlacesFacts.DirectPassNone | bot.py:37-39 | pass 1 finds nothing when no entry is a direct hit |
| PlacesFacts.WordsPassFirst | bot.py:46-48 | pass 3 stops at the first key all of whose words are in the query |
| PlacesFacts.MissIffAllPassesFail | bot.py:34-49 | `(None, None)` is returned exactly when all three passes fail |
| PlacesFacts.EmptyKnowledgeBaseMisses | bot.py:30-49 | with no places file every lookup misses |
| PlacesFacts.KeyInQueryHasAllWords | bot.py:46-47 | a key contained in the query also passes the word test |
| PlacesFacts.WordsAnswerHasSeveralWords | bot.py:37-48 | a pass-3 answer is a non-empty key containing whitespace |
| PlacesFacts.OneWordHit | bot.py:47 | for a one-word key the word test is the substring test |
| PlacesFacts.BlankKeyNeverMisses | bot.py:47 | a blank key passes the word test (`all([])`), so the lookup never misses |
| PlacesFacts.LookupOfNormalized | bot.py:35 | looking up an already normalised text gives the same answer |
| Menus.MainMenu | bot.py:96-109 | the main menu has three rows of 1, 2 and 1 buttons, with payloads lugares, clima, pronostico, ayuda |
| Menus.QuickMenu | bot.py:124-128 | the quick menu is one button whose payload is `menu_principal` |
| Menus.CategoryRows | bot.py:145-153 | six one-button rows with the six `lug_*` payloads in order |
| Menus.PlacesMenu | bot.py:230-239 | seven rows: the six categories, then `menu_principal` |
| Menus.PayloadsAppend | bot.py:230-239 | the payloads of stacked keyboards are the payloads of each, in order |
| Menus.PlacesCommandMenu | bot.py:145-154 | the command keyboard is the button keyboard without its last row |
| Menus.CategoryText | bot.py:244-317 | a static text exists exactly for the six category payloads |
| MenusFacts.ExpiredButtonResendsMainMenu | bot.py:219-225 | an expired press sends the expiry notice, then the welcome text with the main menu, whatever the payload |
| MenusFacts.UnknownPayloadIff | bot.py:229-340 | `PressButton` (`manejar_botones`): "Opción no reconocida 🙂" without a keyboard is sent exactly for payloads outside the handled ones |
| MenusFacts.EveryShownButtonIsKnown | bot.py:96-340 | every payload on any keyboard the bot shows is handled |
| MenusFacts.CategoryPressSendsText | bot.py:244-317 | a category press sends one Markdown message without a keyboard, holding that category's text |
| MenusFacts.PlacesPressShowsCategories | bot.py:230-241 | `lugares` sends one message with seven buttons: six `lug_*` then `menu_principal` |
| MenusFacts.AnswerThenQuickMenu | bot.py:322-334 | clima, pronostico and ayuda send the service text or help text without a keyboard, then the quick menu |
| MenusFacts.FakePressMatchesButton | bot.py:143-154 | `PressButtonFake` (`manejar_botones_fake`): the `/lugares` command sends the same text and the button's keyboard without its last row; other payloads send nothing |
| Routing.RenderLinesAppend | bot.py:180-188 | rendering lines one after another concatenates their renderings |
| Routing.BuildPlaceText | bot.py:180-188 | the successive `texto +=` steps build exactly the rendering of the reply's lines |
| Routing.AppendLine | bot.py:182-188 | one `texto +=` step keeps the text equal to the rendering of the lines so far |
| RoutingFacts.RouteFirstMatch | bot.py:166-214 | `Route` (the routing of `responder_texto` on the normalised text): each text takes exactly one branch: the first test that holds, in the order greeting, place, forecast, weather, menu, fallback |
| RoutingFacts.PlaceIntentIsLookup | bot.py:177-191 | a place answer carries the lookup's key and record: an entry of the dict, its `LUGARES_DATA[key]`, not empty |
| RoutingFacts.EmptyRecordFallsThrough | bot.py:177-178 | a hit whose record is an empty dict goes on to the keyword chain |
| RoutingFacts.HiAnywhereGreets | bot.py:170-174 | any text containing "hi" is a greeting, whatever places exist |
| RoutingFacts.GoodAfternoonIsGreeting | bot.py:167-174 | "Buenas tardes" holds the forecast word "tarde" yet is a greeting |
| RoutingFacts.GreetingWins | bot.py:170-174 | a text holding a greeting word is a greeting, whatever else it holds |
| RoutingFacts.GoodAfternoonWords | bot.py:170-198 | "buenas tardes" holds both the greeting "buenas" and the forecast word "tarde" |
| RoutingFacts.NormalizesTo | bot.py:167 | a text with no padding normalises to its lower-casing |
| RoutingFacts.RainTomorrowIsForecast | bot.py:166-200 | "va a llover mañana" is a forecast request when no places are known |
| RoutingFacts.RainTomorrowText | bot.py:167-198 | that text is already normal, greets nobody and mentions "mañana" |
| RoutingFacts.TomorrowIsForecast | bot.py:196-200 | with no places, a non-greeting text that mentions "mañana" is a forecast request |
| RoutingFacts.TomorrowIsForecastWithoutPlace | bot.py:170-200 | for any knowledge base, a text that greets nobody, finds no place and mentions "mañana" is a forecast request |
| RoutingFacts.MentionsForecastWord | bot.py:196-198 | a text mentioning "mañana" matches the forecast words |
| RoutingFacts.NoGreetingWithout | bot.py:170-172 | a text without the letters h, b and q matches no greeting word |
| RoutingFacts.EmptyKnowledgeBaseNeverFindsPlace | bot.py:176-214 | with no places file, routing is the greeting test followed by the keyword chain |
| RoutingFacts.ClassifyOfNormalized | bot.py:167 | `Classify` (`Route` after `lower().strip()`): routing a text and routing its normalised form agree |
| RoutingFacts.FallbackAsksNormalizedText | bot.py:211-214 | the generated answer is asked about the lower-cased, stripped text |
| RoutingFacts.QuickMenuAfterEveryAnswer | bot.py:170-214 | `Compose`, and so `Respond` (`responder_texto`'s replies): greetings and menu requests get the welcome text with the main menu; every other answer is one message without a keyboard, then the quick menu |
| RoutingFacts.AnswerTexts | bot.py:196-214 | the fallback is the generated text followed by the fixed note; weather and forecast answers are the service text |
| RoutingFacts.PlaceReplyHeader | bot.py:181 | the reply opens with `nombre`, else `clave.title()`, and the description, default "" |
| RoutingFacts.PlaceReplyOptionalLines | bot.py:182-188 | the way-to-get-there, hours and activities lines appear exactly when their field is set and non-empty, carrying its value |
| RoutingFacts.PlaceReplyOrdered | bot.py:180-188 | at most four lines, in the fixed order header, way to get there, hours, activities |
| RoutingFacts.NamelessTitleIsKey | bot.py:181 | without `nombre`, the title of an ASCII key is the key with only letter case changed |
| RoutingFacts.ActivitiesListed | bot.py:186-188 | every activity appears in the activities line |

## Left out

- Telegram transport: the async handlers, `reply_text`, `query.answer` (except
  the expired case, given as a flag), application setup, logging and the error
  handler `manejar_errores` (bot.py:343-370). These are I/O; only the
  messages they send are modelled.
- The other command handlers: `ayuda`, `preguntar` and `main` are not modelled.
  `lugares_cmd` only calls `manejar_botones_fake("lugares", …)`, which is
  modelled.
- `consultar_clima` and `consultar_pronostico` use HTTP and floating-point
  arithmetic. Each is the string it returns.
- `ia_client.py` makes network calls to a text generator. `enriquecer_con_ia`
  is a function from question to text.
- Places.ClosestKey: `SequenceMatcher.ratio` is a parameter, so nothing is
  proved about which keys count as similar. Only the cutoff and the ranking
  are modelled.
- Loading the environment and the places JSON (bot.py:21-31). The knowledge
  base is given. Record values are assumed to be strings (and a list of
  strings for `actividades`). A JSON `null` or number would print or fail
  differently in Python.
- Text.Lower: only ASCII and Latin-1 upper-case letters are mapped. Other
  scripts (Greek, Cyrillic, …) and multi-character lower-casings are not.
- Text.Title: cased letters are ASCII and Latin-1 only; `ß` becomes "Ss".
  Other scripts are not modelled.
- Text.TitleOnlyChangesCase: proved for ASCII keys only, because `ß`
  lengthens when title-cased.
- Emoji and Markdown wording are kept as constant strings. Telegram's
  rendering of them is not modelled.
