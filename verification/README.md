# OSINT CTF catalog: answer verification and catalog view, in Dafny

This project models the logic of the OSINT CTF challenge catalog page
(`script.js`). The page lists CTF *collections* as cards. A card opens a modal
with the collection's challenges in three difficulty panes: easy, medium and
hard. Each challenge has an answer box. Its "Verify" button checks the text
of the first answer box in the page that carries its key against the answer
stored with the data, ignoring case and surrounding
whitespace. On success it writes a "solved" flag to the browser's storage.

What is modelled:

- **Composite challenge key** (`ChallengeKey`). The key is `"<ctfId>-<challengeName>"`.
  The verifier decodes it by splitting on `-`, reading the first piece with
  `parseInt` and re-joining the other pieces as the name. The model proves that
  decoding undoes encoding for every non-negative id and every name, including
  names that contain hyphens. It also proves that a negative id is lost: the
  key then starts with the separator.
- **Lookup** (`Lookup`). The first collection whose `id` equals the parsed id is
  chosen. Then the first challenge with the decoded name is taken from the
  easy, medium and hard buckets, in that order. The model proves this equals a
  first-match search over the collection's whole easy-medium-hard listing.
- **Verification decision** (`Verifier`). The result is one of `EmptyInput`,
  `NotAvailable`, `Correct` or `Incorrect`. Storage is a `map<string, string>`.
  Only a `Correct` result changes it, and only at `"ctf_solved_" + key`, where
  it writes `"true"`. Padding the input with whitespace or changing its letter
  case never changes the result. Over any sequence of verifications, storage
  only gains solved records.
- **Catalog view** (`CatalogView`). This covers the hero statistics (sum of
  `totalChallenges`, number of collections), the card grid (one placeholder
  for an empty list, otherwise one card per collection in order), and the card
  badges (one per non-empty bucket, in the order easy, medium, hard). It also
  covers the year label (`ctf.year || '2024'`), the accordion items with their
  keys, the empty-bucket placeholder, and the modal, which always opens on the
  easy tab.
- **JavaScript built-ins** (`JsStrings`): `trim` with ECMAScript's whitespace
  set, ASCII `toLowerCase`, `split`/`join`, `parseInt` with no radix (sign,
  `0x` prefix, longest digit prefix, `NaN`), and the decimal printing of
  integers.
- **End to end** (`EndToEnd`). Take a collection whose id is non-negative and
  that no earlier collection shares. Every verify button in its modal leads
  the verifier back to a challenge with the item's name. With names unique in
  the collection, that is the item's own challenge. A negative id never
  resolves (`ChallengeKey.NegativeIdIsLost`). A worked example is also proved:
  collection 1 holds the easy challenge "warmup" with answer "FLAG1". Its card
  shows "1 Easy" and the default year. Its key is `"1-warmup"`. Verifying
  "flag1" is `Correct` and stores `"ctf_solved_1-warmup"`.

Three facts about the code are easy to get wrong:

- A challenge name that contains hyphens still round-trips through the key
  whenever the id is non-negative, because every piece after the first is
  re-joined (`ChallengeKey.DecodeEncode`).
- The solved record is written at `"ctf_solved_" + key`, for example
  `"ctf_solved_1-warmup"`, with the value `"true"`.
- The expected answer is tested for truthiness, so an answer of `""` gives
  `NotAvailable`. An answer made only of whitespace is truthy but can never be
  matched (`Verifier.BlankAnswerNeverAccepted`).

## Model

| member | source | states |
|---|---|---|
| JsStrings.Trim | script.js:336 | the result has no whitespace at either end, and it is empty exactly when the input is all whitespace |
| JsStrings.TrimIgnoresPadding | script.js:336 | whitespace added before and after a string never changes its trim |
| JsStrings.ToLower | script.js:363-364 | lower-casing keeps the length and maps each character through the ASCII lower-case mapping |
| JsStrings.LowerCommutesWithTrim | script.js:363-364 | lower-casing then trimming equals trimming then lower-casing |
| JsStrings.Join | script.js:347 | joining no parts gives the empty string; otherwise the result starts with the first part and ends with the last; `Split`'s round trip pins it for the hyphen |
| JsStrings.JoinCharacters | script.js:285 | joining adds no character beyond those of the parts and the separator, so the files row holds only the file names' characters and ", " |
| JsStrings.Split | script.js:346 | split yields at least one piece, no piece contains the separator, and joining the pieces with the separator restores the input |
| JsStrings.SplitAtFirst | script.js:346-347 | splitting `p + "-" + q`, where `p` has no hyphen, gives `p` followed by the pieces of `q` |
| JsStrings.NatToString | script.js:260 | a number prints as at least one decimal digit, those digits have exactly its value, and there is no leading zero |
| JsStrings.IntToString | script.js:260 | an integer prints as a minus sign exactly when it is negative, then at least one decimal digit whose value is the magnitude, with no leading zero other than "0" itself; `ParseIntOfIntToString` reads it back |
| JsStrings.ParseInt | script.js:350 | a number results only when the text holds a decimal digit; `ParseIntOfIntToString` and `ParseIntWithoutDigits` pin it on printed integers and on digit-free text |
| JsStrings.ParseIntOfNumeral | script.js:350 | a decimal numeral with no redundant leading zero, bare or after a minus sign, parses to its value or its negation |
| JsStrings.ParseIntOfIntToString | script.js:350 | `parseInt` reads back exactly the integer that a template literal printed, negative ones included |
| JsStrings.ParseIntWithoutDigits | script.js:350 | text with no decimal digit, the empty string among it, parses as NaN |
| ChallengeKey.Encode | script.js:260 | the key always holds a hyphen; for a non-negative id the text before the first hyphen is the id's decimal digits and the text after it is the name; `DecodeEncode` and `EncodeInjective` complete the round trip |
| ChallengeKey.Decode | script.js:346-347 | the id is `parseInt` of the text before the first hyphen; the name is everything after that hyphen, or empty when there is no hyphen |
| ChallengeKey.DecodeEncode | script.js:346-347 | decoding the key built for a non-negative id and any name gives back exactly that id and name |
| ChallengeKey.EncodeInjective | script.js:260 | two (id, name) pairs with non-negative ids have the same key only if they are equal |
| ChallengeKey.NegativeIdIsLost | script.js:346-350 | for a negative id the decoded id is NaN, and the decoded name is the key of the positive id |
| Lookup.FirstIndex | script.js:350-353 | `find` returns the first element that meets the predicate; no result means no element meets it |
| Lookup.CollectionIndex | script.js:350 | the result is the first collection with the id; no result means no collection has that id |
| Lookup.ChallengeIndex | script.js:353 | the result is the first challenge in the bucket with the name; no result means none has it |
| Lookup.FindChallenge | script.js:351-359 | a found challenge has the name and belongs to the collection; nothing is found exactly when no challenge of the collection has the name |
| Lookup.LookupKey | script.js:346-359 | a found challenge has the decoded name and belongs to a collection with the decoded id; a key whose prefix is NaN finds nothing |
| Lookup.FindChallengeIsFirstInOrder | script.js:352-358 | searching easy, then medium, then hard equals the first match in the whole easy-medium-hard listing |
| Lookup.LookupKeySearchesFirstCollection | script.js:346-359 | a key whose id is that of the first collection carrying it finds exactly what the bucket search of that collection finds, so a challenge present there is found and a later collection with the same id is never searched |
| Lookup.LookupOfEncodedKey | script.js:350-359 | a key built from a collection's non-negative id finds that collection's first challenge with the name, when no earlier collection shares the id |
| Verifier.NormalizeOfTrim | script.js:363-364 | trimming the user's text first does not change its normalised form |
| Verifier.VerifyAnswer | script.js:331-383 | `EmptyInput` exactly for all-whitespace input; `NotAvailable` exactly for non-blank input whose challenge is missing or has a falsy answer; `Correct` exactly when the normalised texts match; storage changes only on `Correct`, and only at the solved key |
| Verifier.NormalizeIgnoresPaddingAndCase | script.js:363-366 | surrounding whitespace and letter case never change the normalised text or whether the text is blank |
| Verifier.VerifyIgnoresPaddingAndCase | script.js:336-366 | the outcome and the new storage are the same for any padding and any letter case of the user's text |
| Verifier.ExpectedAnswerAccepted | script.js:362-370 | typing a non-blank expected answer, in any case and with any padding, is `Correct` and stores "true" at the solved key |
| Verifier.BlankAnswerNeverAccepted | script.js:362-366 | a non-empty answer made only of whitespace makes every non-blank input `Incorrect`, with storage unchanged |
| Verifier.SessionKeepsRecords | script.js:366-370 | across any sequence of verifications, no key is removed, no "true" is lost, and each correct attempt leaves "true" at its solved key |
| Verifier.SessionChangesOnlySolved | script.js:366-378 | across any sequence of verifications, each entry that differs from the initial storage holds "true" and is the solved key of an attempt that was correct |
| CatalogView.SumTotalsOfConcat | script.js:28 | the total of two lists of collections is the sum of their totals |
| CatalogView.UpdateHeroStats | script.js:27-34 | the left-to-right reduce gives the sum of `totalChallenges` over all collections, and the count is the number of collections |
| CatalogView.YearLabel | script.js:189 | an absent year or year 0 shows "2024"; any other year shows exactly its printed decimal text, which `parseInt` reads back as that year |
| CatalogView.Badges | script.js:172-196 | every badge carries the non-zero size of its own bucket, every non-empty bucket has its badge, and badges run in the order easy, medium, hard, so none repeats |
| CatalogView.CreateCard | script.js:168-203 | the card shows the collection's title, status, description and total, "2024" for an absent or zero year and the year's printed decimal text otherwise, the badges of `Badges`, and opens this collection |
| CatalogView.LoadCtfCards | script.js:152-165 | the placeholder appears exactly when there are no collections; otherwise there is one card per collection, in the list's order |
| CatalogView.CreateAccordionItem | script.js:254-328 | for a non-negative collection id, the item's key decodes to that id and the challenge name; the image, files and folder rows appear exactly when their fields are truthy; the files row is the file names joined with ", " |
| CatalogView.LoadChallenges | script.js:238-251 | the placeholder appears exactly for an empty bucket; otherwise there is one item per challenge, in order, with that challenge's name and key |
| CatalogView.OpenModal | script.js:206-235 | the modal always opens on the easy tab; each difficulty shows its bucket's size, its pane is that bucket rendered under the collection id, and the pane is the placeholder exactly when the size is 0 |
| EndToEnd.ModalItemResolves | script.js:225-260 | for a collection with a non-negative id that no earlier collection shares, each modal item's key is looked up to a challenge with the item's name, the first such in the collection; when names are unique in the collection, it is the item's own challenge |
| EndToEnd.WarmupCard | script.js:172-196 | the one-easy-challenge collection's card shows the single badge "1 Easy" and the year "2024" |
| EndToEnd.WarmupModal | script.js:238-260 | that collection's easy pane holds one item, "warmup", with the key "1-warmup" |
| EndToEnd.WarmupVerify | script.js:331-370 | verifying "flag1" against the answer "FLAG1" is `Correct` and stores "true" at "ctf_solved_1-warmup" |

## Left out

- DOM construction (`innerHTML` templates, `querySelector`, class toggling), the loading spinner, and the error panel. The page's output is modelled as values (`Grid`, `Card`, `Pane`, `AccordionItem`, `Modal`), not as markup.
- `loadCTFData` reading the global `window.localCTFData`. The collection list is an input value, and the failure panel shown when the global is absent is not modelled.
- `setTimeout`: the 500 ms verification delay and the 5-second feedback auto-clear. The two phases of `verifyAnswer` are one decision, so overlapping verifications are not modelled. The feedback texts and the button's disabled state are not modelled either.
- Modal closing, tab switching, accordion toggling, smooth scrolling and the mobile menu. These are UI state changes with nothing to state beyond which class is set.
- `animateCounter`, the parallax effect, the fade-in observers and the Enter-key dispatch. These are floating-point cosmetics and browser event plumbing.
- A challenge name containing `"`, `'`, `\`, a line break or an HTML character reference such as `&amp;` or `&#45;`. The name is pasted into two HTML attributes (script.js:297-298): the `data-challenge` value and the inline `onclick` handler's string. It is also pasted into the `querySelector` selector's string (script.js:332). A quote ends a string. A backslash starts an escape, so `\b` turns into a different character. A raw line break is a syntax error. HTML decodes a character reference inside an attribute, so the key the button passes differs from the key built at script.js:260 and a checkable challenge reports `NotAvailable`. Otherwise the verifier never receives the key, or the input lookup yields null. That breakage happens in the DOM layer, which is not modelled.
- Which answer field a verification reads. The model's `input` is the text of the first answer field in the page whose `data-challenge` equals the key (script.js:332-334). All three panes stay in the page. So when two items of the open collection share a name, such as "intro" in easy and in hard, the hard item's button and its Enter key (script.js:433-436) check the easy item's text. The feedback and the disabled button also land on the easy item. The model does not track which field was typed into.
- JsStrings.ToLower: only ASCII letters are lowered. Full Unicode case mapping, including mappings that change the length, is not modelled.
- JavaScript strings are UTF-16 code-unit sequences; the model uses Unicode scalar values. All separators and whitespace involved lie in the Basic Multilingual Plane.
- Numbers are unbounded integers. Doubles, including ids or years beyond 2^53 and their exponent notation at 10^21 and above, are not modelled. A non-integral `year` is not modelled either.
- Stored values are strings, as in `localStorage`. Storage quota errors are not modelled.
