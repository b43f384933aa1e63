# DataGuardian PII pipeline: a Dafny model

This project models the detection, scoring and redaction core of DataGuardian,
an ASP.NET Core middleware that looks for personal data (PII) in request and
response bodies. The model covers five parts:

- **Recognizers.** The four validating recognizers and their accept loops.
  - IBAN: the country-length table and the MOD 97-10 check of ISO 13616-1 and ISO/IEC 7064.
  - Credit card: the Luhn check of ISO/IEC 7812-1 Annex B, plus the issuer prefix and length rules.
  - Turkish national ID (TCKN): the two weighted check digits, behind the language gate.
  - Address: the keyword scanner.
- **The language guess.**
- **The engine's `AnalyzeDetailed`.**
  - It runs the seven recognizers in registration order.
  - It applies the include and exclude entity-type filters.
  - It appends the confident named-entity (NER) results.
  - It counts hits per type and computes the capped, weighted sum that feeds the risk curve.
- **The middleware's policy.**
  - `Redact` in its three styles: MaskAll, Partial and Hash.
  - `IsAllowed` and `IsTextContent`.
  - The block and redact conditions.
- **NER post-processing.** Label-to-type mapping, one entity per labelled token, and merging adjacent entities.

Each source file has its own module:

| module | file | models |
|---|---|---|
| `Models` | `models.dfy` | the records, the options and the shared accept loop `HitsOf` |
| `Chars` | `chars.dfy` | ASCII classes and case mapping, white space, decimal numerals |
| `Language` | `language.dfy` | `SimpleLanguage.Guess` |
| `Iban` | `iban.dfy` | `IbanRecognizer` |
| `CreditCard` | `credit_card.dfy` | `CreditCardRecognizer` |
| `Tckn` | `tckn.dfy` | `TcknRecognizer` |
| `Address` | `address.dfy` | `AddressRecognizer` |
| `Ner` | `ner.dfy` | the label handling and merging of `BertNerOnnx` |
| `Engine` | `engine.dfy` | `DataGuardianEngine` |
| `Redaction` | `redaction.dfy` | the middleware's `Redact` |
| `Middleware` | `middleware.dfy` | the middleware's filters and decisions |

**Loops and specifications.**
- Loops in the source are methods with loop invariants in the model. Each is proved against a specification: usually a recursive function, for `Redaction.MaskAllSpan` and `Redaction.PartialSpan` a sequence comprehension, and for `Ner.TokenEntities` the list of tagged tokens, whose soundness, order and completeness are proved.
  - Recognizer accept loops: `Iban.Analyze`, `CreditCard.Analyze` and `Tckn.Analyze`.
  - `Iban.IsIbanValid` and `CreditCard.IsLuhnValid`.
  - The nested `IndexOf` loop of `Address.Analyze`.
  - `Ner.TokenEntities` and `Ner.MergeEntities`.
  - The NER and weighted-sum loops of `Engine.AnalyzeDetailed`, whose detection half is `Engine.Detect`.
  - The `StringBuilder` rewrite of `Redaction.Redact`, whose per-style inner loops are `Redaction.MaskAllSpan` and `Redaction.PartialSpan`.
- The properties are then proved about those specification functions.

**Where the model follows the code over the documentation.**
- **TCKN unit test.** The unit test expects no TCKN hit in "00000000000 10000000146 10000000145". But `10000000146` passes both checks, so the recognizer reports it. `Tckn.TestTextYieldsHit` proves the hit.
- **All-zero TCKN.** `00000000000` also passes both checks. Only the pattern's leading `[1-9]` keeps it out: `Tckn.AllZerosOnlyExcludedByPattern`.
- **NER and the type filters.** NER hits are appended after the type filters, so the include and exclude sets do not apply to them (`Engine.NerBypassesFilters`). The model keeps this order.
- **NER offsets.** NER entities carry token indices: token t spans t to t + 1. The engine turns them into hits as if they were character offsets. The model carries the numbers through unchanged, as the code does. It states no relation between those hits and the text.
- **Hash redaction of a negative length.** The documented redaction never throws. The code's Hash branch throws on a fitting hit of negative length, because `ToString(start, length)` rejects a negative length. The model returns `None` there (`Redaction.HashReplaces`). The other styles skip such a hit.

## Model

| member | source | states |
|---|---|---|
| Models.HitsOfIff | src/Devoplus.DataGuardian/Recognizers/IBANRecognizer.cs:31-41 | the shared accept loop reports a hit exactly when some match is accepted. The hit carries that match's index and length and the recognizer's type |
| Models.HitsOfWithin | src/Devoplus.DataGuardian/Recognizers/IBANRecognizer.cs:39 | every hit of an accept loop has the recognizer's type and lies inside the scanned text |
| Models.DefaultOptions | src/Devoplus.DataGuardian/DataGuardianOptions.cs:8-57 | the defaults only tag: action Tag, BlockAt −1 and NER off. Every default weight is positive and the cap is non-negative. Every type redacted by default has a weight, and no weight or redaction entry is keyed "IBAN", the type the IBAN recognizer emits |
| Language.TurkishScore | src/Devoplus.DataGuardian/SimpleLanguage.cs:11 | the score is at most the text length. It is positive exactly when one of ğĞşŞıİçÇöÖüÜ occurs |
| Language.Guess | src/Devoplus.DataGuardian/SimpleLanguage.cs:7-13 | the guess is "tr" or "en". It is "tr" exactly when a Turkish-specific letter occurs, so an empty text gives "en" |
| Language.AppendKeepsTurkish | src/Devoplus.DataGuardian/SimpleLanguage.cs:10-12 | appending anything to a text guessed "tr" keeps it "tr" |
| Language.AsciiIsEnglish | src/Devoplus.DataGuardian/SimpleLanguage.cs:10-12 | a text of ASCII characters only is guessed "en" |
| Chars.LowerAbsorbs | src/Devoplus.DataGuardian/Recognizers/AddressRecognizer.cs:14 | lower-casing is idempotent and undoes a prior upper-casing |
| Chars.NumeralValueConcat | src/Devoplus.DataGuardian/Recognizers/IBANRecognizer.cs:50-52 | the numeral of a concatenation is the left numeral shifted by the right part's length, plus the right numeral |
| Chars.NumeralValueBounds | src/Devoplus.DataGuardian/Recognizers/IBANRecognizer.cs:50-52 | a numeral of n digits lies in [0, 10^n) |
| Chars.StartsWithIgnoreCase | src/Devoplus.DataGuardian/DataGuardianMiddleware.cs:119 | a match needs the prefix to be no longer than the string, and every exact prefix matches |
| Chars.IsWhiteSpace | src/Devoplus.DataGuardian/DataGuardianEngine.cs:39 | a white-space character is never an ASCII letter or digit. Among ASCII characters, exactly tab, line feed, vertical tab, form feed, carriage return and space are white space |
| Iban.RemoveSpaces | src/Devoplus.DataGuardian/Recognizers/IBANRecognizer.cs:33 | no space is left and the result is no longer than the input. A string without spaces is unchanged |
| Iban.NormalizeShaped | src/Devoplus.DataGuardian/Recognizers/IBANRecognizer.cs:33 | a pattern match normalizes to its upper-cased self, made of upper-case letters and digits only |
| Iban.Rearranged | src/Devoplus.DataGuardian/Recognizers/IBANRecognizer.cs:48 | moving the first four characters to the end keeps the length and the multiset of characters |
| Iban.TwoDigits | src/Devoplus.DataGuardian/Recognizers/IBANRecognizer.cs:49 | a number below 100 is written as two digits whose numeral is that number |
| Iban.ExpandChar | src/Devoplus.DataGuardian/Recognizers/IBANRecognizer.cs:49 | a letter becomes two digits with value c − 'A' + 10, which lies in [10, 35]. Any other character stays as it is |
| Iban.Expand | src/Devoplus.DataGuardian/Recognizers/IBANRecognizer.cs:49 | the numeric string's length is the length plus the number of letters. It is all digits for upper-case letters and digits |
| Iban.ExpandConcat | src/Devoplus.DataGuardian/Recognizers/IBANRecognizer.cs:49 | expansion distributes over concatenation |
| Iban.IsIbanValid | src/Devoplus.DataGuardian/Recognizers/IBANRecognizer.cs:46-54 | the Horner loop `(r*10+d)%97` keeps the numeral's remainder, so it answers true exactly when the rearranged, expanded numeral is 1 modulo 97 |
| Iban.Analyze | src/Devoplus.DataGuardian/Recognizers/IBANRecognizer.cs:28-43 | the hits are the accepted matches in match order, as IBAN hits with the match's index and length, inside the text |
| Iban.ExpectedLength | src/Devoplus.DataGuardian/Recognizers/IBANRecognizer.cs:11-23 | a code the table lists is two upper-case ASCII letters, and its length lies between 15 (NO) and 31 (MT) |
| Iban.AcceptedHasCountryLength | src/Devoplus.DataGuardian/Recognizers/IBANRecognizer.cs:33-36 | an accepted candidate has 15 to 34 characters, a country code in the table, and exactly that country's length |
| Iban.CheckRejects | src/Devoplus.DataGuardian/Recognizers/IBANRecognizer.cs:38-39 | a candidate whose normalized form fails the MOD-97 check is never accepted, whatever its country and length |
| Iban.CheckDigitsValidate | src/Devoplus.DataGuardian/Recognizers/IBANRecognizer.cs:46-54 | an IBAN built with ISO 7064 check digits always passes the MOD-97 check, so generation and validation agree |
| Iban.TurkeyLength | src/Devoplus.DataGuardian/Recognizers/IBANRecognizer.cs:23 | the table gives Turkey 26 characters |
| Iban.TurkishZerosRejected | src/Devoplus.DataGuardian/Recognizers/IBANRecognizer.cs:46-53 | "TR" followed by 24 zeros has Turkey's length, but its numeral leaves remainder 51 modulo 97, so it is rejected |
| Iban.TestIbanRejected | tests/Devoplus.DataGuardian.Tests/RecognizerTests.cs:37 | the engine test's `TR000000000000000000000000` yields no IBAN hit |
| CreditCard.Digits | src/Devoplus.DataGuardian/Recognizers/CreditCardRecognizer.cs:16 | the stripped string holds only digits and is no longer than the match |
| CreditCard.DigitsConcat | src/Devoplus.DataGuardian/Recognizers/CreditCardRecognizer.cs:16 | stripping distributes over concatenation |
| CreditCard.IsLuhnValid | src/Devoplus.DataGuardian/Recognizers/CreditCardRecognizer.cs:24-34 | the right-to-left loop with alternating doubling answers true exactly when the Luhn sum is 0 modulo 10 |
| CreditCard.IsKnownCardType | src/Devoplus.DataGuardian/Recognizers/CreditCardRecognizer.cs:36-53 | a known issuer number has 15 or 16 digits |
| CreditCard.VisaIsKnown | src/Devoplus.DataGuardian/Recognizers/CreditCardRecognizer.cs:38-40 | every 16-digit number starting with 4 passes the issuer rules |
| CreditCard.Analyze | src/Devoplus.DataGuardian/Recognizers/CreditCardRecognizer.cs:11-22 | the hits are the accepted matches in match order, as CREDIT_CARD hits spanning the whole match, inside the text |
| CreditCard.AcceptedLengths | src/Devoplus.DataGuardian/Recognizers/CreditCardRecognizer.cs:16-53 | only 15- and 16-digit numbers are ever reported, so Luhn-valid numbers of 13, 14 or 17 to 19 digits never are |
| CreditCard.LuhnSumUpdate | src/Devoplus.DataGuardian/Recognizers/CreditCardRecognizer.cs:27-31 | replacing one digit changes the Luhn sum by the change of that digit's contribution alone |
| CreditCard.SingleDigitErrorDetected | src/Devoplus.DataGuardian/Recognizers/CreditCardRecognizer.cs:24-34 | changing any one digit of a Luhn-valid number makes it Luhn-invalid |
| CreditCard.TestCardAccepted | tests/Devoplus.DataGuardian.Tests/RecognizerTests.cs:28-29 | "4111 1111 1111 1111" is accepted: Luhn sum 30 and a Visa number |
| CreditCard.TestCardHit | src/Devoplus.DataGuardian/Recognizers/CreditCardRecognizer.cs:19 | the test card matched at offset 8 gives one hit of length 19, covering its separators |
| Tckn.TruncRem10 | src/Devoplus.DataGuardian/Recognizers/TcknRecognizer.cs:30-31 | C#'s truncating `% 10` agrees with the mathematical remainder on non-negative operands. On negative ones it lies in (−10, 0] and is 10 less than the remainder unless it is 0 |
| Tckn.DigitsOf | src/Devoplus.DataGuardian/Recognizers/TcknRecognizer.cs:27 | each character is mapped to c − '0', position by position |
| Tckn.TenthDigit | src/Devoplus.DataGuardian/Recognizers/TcknRecognizer.cs:28-31 | after the sign correction the expected tenth digit is (7·(d0+d2+d4+d6+d8) − (d1+d3+d5+d7)) mod 10, in [0, 10) |
| Tckn.Analyze | src/Devoplus.DataGuardian/Recognizers/TcknRecognizer.cs:12-23 | there are no hits unless the language is "tr". Otherwise the hits are the valid matches in order, each a TCKN hit of length 11 inside the text |
| Tckn.IsValid | src/Devoplus.DataGuardian/Recognizers/TcknRecognizer.cs:25-35 | a string that passes has a decimal digit in its tenth position, since that digit must equal a remainder in 0..9 |
| Tckn.Hits | src/Devoplus.DataGuardian/Recognizers/TcknRecognizer.cs:14-22 | every hit is typed TCKN |
| Tckn.IsValidIff | src/Devoplus.DataGuardian/Recognizers/TcknRecognizer.cs:25-35 | for a digit string the two checks are exactly the published rules: d9 is the weighted rule mod 10 and d10 = (d0+…+d9) mod 10 |
| Tckn.Complete | src/Devoplus.DataGuardian/Recognizers/TcknRecognizer.cs:28-34 | nine leading digits are completed to eleven digits with the same prefix |
| Tckn.CompleteIsValid | src/Devoplus.DataGuardian/Recognizers/TcknRecognizer.cs:25-35 | nine digits completed with their computed check digits always pass `IsValid` |
| Tckn.RulesBreakOnOneChange | src/Devoplus.DataGuardian/Recognizers/TcknRecognizer.cs:28-34 | changing one digit value of an ID that satisfies both rules breaks one of them |
| Tckn.SingleDigitErrorDetected | src/Devoplus.DataGuardian/Recognizers/TcknRecognizer.cs:25-35 | changing any one digit of a valid ID makes it invalid |
| Tckn.Accepts10000000146 | src/Devoplus.DataGuardian/Recognizers/TcknRecognizer.cs:25-35 | `10000000146` passes both checks |
| Tckn.Rejects10000000145 | src/Devoplus.DataGuardian/Recognizers/TcknRecognizer.cs:33-34 | `10000000145` fails the eleventh-digit check |
| Tckn.AllZerosOnlyExcludedByPattern | src/Devoplus.DataGuardian/Recognizers/TcknRecognizer.cs:10-35 | `00000000000` passes both checks and is kept out only by the pattern's leading `[1-9]` |
| Tckn.TestTextYieldsHit | tests/Devoplus.DataGuardian.Tests/RecognizerTests.cs:20-21 | on the unit test's text with language "tr", the recognizer reports exactly one hit, `10000000146` at offset 12. The test expects none |
| Address.Keys | src/Devoplus.DataGuardian/Recognizers/AddressRecognizer.cs:8-15 | either keyword list has ten non-empty keys |
| Address.IndexOf | src/Devoplus.DataGuardian/Recognizers/AddressRecognizer.cs:19 | the result is the first occurrence of the key at or after the start position, or −1 when there is none |
| Address.AddKeyHits | src/Devoplus.DataGuardian/Recognizers/AddressRecognizer.cs:17-23 | the inner loop terminates and appends exactly the greedy left-to-right occurrences of one key |
| Address.Analyze | src/Devoplus.DataGuardian/Recognizers/AddressRecognizer.cs:10-24 | the hits are those of the language's keys, key by key in list order, on the lower-cased text |
| Address.AddAllKeyHits | src/Devoplus.DataGuardian/Recognizers/AddressRecognizer.cs:16-24 | the outer loop yields the hits of the keys in list order |
| Address.AllKeyHitsWithin | src/Devoplus.DataGuardian/Recognizers/AddressRecognizer.cs:16-23 | every hit of a key list is a non-empty ADDRESS span inside the scanned string |
| Address.Hits | src/Devoplus.DataGuardian/Recognizers/AddressRecognizer.cs:11-25 | every hit is a non-empty ADDRESS span inside the original text, because lower-casing keeps the length |
| Address.KeyHitsSound | src/Devoplus.DataGuardian/Recognizers/AddressRecognizer.cs:18-22 | every hit of one key is an ADDRESS occurrence of that key. The hits are in increasing order and do not overlap |
| Address.KeyHitsCover | src/Devoplus.DataGuardian/Recognizers/AddressRecognizer.cs:18-22 | every occurrence of the key lies inside some reported hit |
| Address.AllKeyHitsMember | src/Devoplus.DataGuardian/Recognizers/AddressRecognizer.cs:15-23 | each hit of the key list is a hit of one of its keys |
| Address.AllKeyHitsIncludes | src/Devoplus.DataGuardian/Recognizers/AddressRecognizer.cs:15-23 | each key's hits are all among the list's hits |
| Address.AllKeyHitsAreKeys | src/Devoplus.DataGuardian/Recognizers/AddressRecognizer.cs:16-23 | every hit spans a slice of the scanned string that is one of the keys |
| Address.HitsAreKeywords | src/Devoplus.DataGuardian/Recognizers/AddressRecognizer.cs:14-21 | every hit is an ADDRESS span inside the text whose lower-cased content is one of the language's keys |
| Address.HitsCoverKeywords | src/Devoplus.DataGuardian/Recognizers/AddressRecognizer.cs:14-23 | every occurrence of a key in the lower-cased text is covered by a hit of that key's length |
| Address.AvenueReportedTwice | src/Devoplus.DataGuardian/Recognizers/AddressRecognizer.cs:9-23 | in a non-Turkish text every "avenue" lies inside both an "avenue" hit and an "ave" hit |
| Address.CaseInsensitive | src/Devoplus.DataGuardian/Recognizers/AddressRecognizer.cs:8-14 | upper-casing or lower-casing the text first does not change the hits |
| Ner.BeforeDash | src/Devoplus.DataGuardian/Ner/BertNerOnnx.cs:87 | the text before the first dash is a dash-free prefix. For a dash-free string it is the whole string |
| Ner.AfterDash | src/Devoplus.DataGuardian/Ner/BertNerOnnx.cs:87 | the string is the part before the first dash, a dash, and the result |
| Ner.BaseLabel | src/Devoplus.DataGuardian/Ner/BertNerOnnx.cs:87 | the base label, `Split('-')[1]` when there is a dash, contains no dash |
| Ner.TypeFromLabel | src/Devoplus.DataGuardian/Ner/BertNerOnnx.cs:85-96 | the entity type contains no dash |
| Ner.Canonical | src/Devoplus.DataGuardian/Ner/BertNerOnnx.cs:88-96 | the renaming changes a base label exactly when it is PER, ADDR or DATE. EMAIL, PHONE and every other label pass through |
| Ner.TaggedLabel | src/Devoplus.DataGuardian/Ner/BertNerOnnx.cs:85-96 | a label `P-X` or `P-X-…` gets the renaming of X, and that is also the type of the bare label X |
| Ner.PersonLabels | src/Devoplus.DataGuardian/Ner/BertNerOnnx.cs:90 | B-PER and I-PER both give PERSON |
| Ner.DateLabel | src/Devoplus.DataGuardian/Ner/BertNerOnnx.cs:94 | B-DATE gives DOB |
| Ner.OtherLabel | src/Devoplus.DataGuardian/Ner/BertNerOnnx.cs:95 | a class outside the switch, such as B-ORG, keeps its own name |
| Ner.TokenEntities | src/Devoplus.DataGuardian/Ner/BertNerOnnx.cs:60-81 | every token whose label is not "O", and no other token, yields one entity spanning t to t + 1 with that label's type and probability. The entities are in token order |
| Ner.TaggedAll | src/Devoplus.DataGuardian/Ner/BertNerOnnx.cs:60-81 | the tagged tokens of a whole label sequence are sound, in increasing token order, and include every token whose label is not "O" |
| Ner.MergeFrom | src/Devoplus.DataGuardian/Ner/BertNerOnnx.cs:103-117 | the merge from a current entity yields 1 to n + 1 entities. The first keeps the current type and start, and the last stops where the input stops |
| Ner.Merge | src/Devoplus.DataGuardian/Ner/BertNerOnnx.cs:99-119 | the result is empty exactly for an empty input. It is never longer than the input, starts at the first input start and stops at the last input stop |
| Ner.MergeEntities | src/Devoplus.DataGuardian/Ner/BertNerOnnx.cs:99-119 | the loop that extends `cur` or emits it computes `Merge` |
| Ner.MergeNoJoinable | src/Devoplus.DataGuardian/Ner/BertNerOnnx.cs:104-117 | no two neighbours of the result have the same type with touching spans |
| Ner.MergeIdempotent | src/Devoplus.DataGuardian/Ner/BertNerOnnx.cs:99-119 | merging a merged list changes nothing |
| Ner.MaxConfidence | src/Devoplus.DataGuardian/Ner/BertNerOnnx.cs:109 | the running maximum is at least every confidence it has seen and equals one of them |
| Ner.RunCollapses | src/Devoplus.DataGuardian/Ner/BertNerOnnx.cs:107-109 | a run of contiguous entities of one type collapses into one entity, with the first start, the last stop and the highest confidence |
| Engine.LanguageOf | src/Devoplus.DataGuardian/DataGuardianEngine.cs:41 | the configured language override wins. Otherwise the language is the guess |
| Engine.KeepIff | src/Devoplus.DataGuardian/DataGuardianEngine.cs:47-50 | a hit survives a `Where` on its type exactly when it was present and its type is inside (or outside) the set |
| Engine.Keep | src/Devoplus.DataGuardian/DataGuardianEngine.cs:47-50 | every kept hit was in the list, and its type is inside (or outside) the set as asked |
| Engine.PatternHits | src/Devoplus.DataGuardian/DataGuardianEngine.cs:17-44 | every pattern hit carries one of the seven recognizer types |
| Engine.DetectedHits | src/Devoplus.DataGuardian/DataGuardianEngine.cs:38-59 | a blank text gives no hits. A hit of a type no recognizer emits comes from NER, so only when NER is enabled and ready |
| Engine.TypeFilterIff | src/Devoplus.DataGuardian/DataGuardianEngine.cs:47-50 | a pattern hit passes the filters exactly when the include set is empty or holds its type, and the exclude set does not |
| Engine.FilterTypes | src/Devoplus.DataGuardian/DataGuardianEngine.cs:47-50 | the two `Where` steps, each run only when its set is non-empty, compute the type filter |
| Engine.NerHitsIff | src/Devoplus.DataGuardian/DataGuardianEngine.cs:56-58 | an entity becomes a hit exactly when its confidence reaches the threshold. The hit is (type, start, end − start), and end > start is not checked |
| Engine.Count | src/Devoplus.DataGuardian/DataGuardianEngine.cs:62 | a type's count is at most the number of hits. It is zero exactly when no hit has that type |
| Engine.KindOrder | src/Devoplus.DataGuardian/DataGuardianEngine.cs:62 | the group keys are distinct and are exactly the types present |
| Engine.Groups | src/Devoplus.DataGuardian/DataGuardianEngine.cs:62 | the counts have a key exactly for each type present, holding the uncapped, positive number of hits of that type |
| Engine.WeightOf | src/Devoplus.DataGuardian/DataGuardianEngine.cs:66-67 | a configured positive weight is used as is. A missing or non-positive weight counts as 1, so every weight is positive |
| Engine.AnalyzeDetailed | src/Devoplus.DataGuardian/DataGuardianEngine.cs:36-72 | the hits are the filtered pattern hits followed by the confident NER hits. The counts are their groups, and the risk is the curve of the capped weighted sum. A blank text gives no hits, no counts and, for a valid curve, risk 0 |
| Engine.Detect | src/Devoplus.DataGuardian/DataGuardianEngine.cs:38-59 | the detection half computes the detected hits: none for a blank text, otherwise the filtered recognizer hits followed by the NER hits |
| Engine.RunRecognizers | src/Devoplus.DataGuardian/DataGuardianEngine.cs:17-44 | the pattern hits are the recognizers' hits concatenated in the order Email, Phone, Iban, CreditCard, Tckn, Dob, Address, all inside the text |
| Engine.AddNerHits | src/Devoplus.DataGuardian/DataGuardianEngine.cs:56-58 | the loop appends exactly the confident entities' hits, in order |
| Engine.SumGroups | src/Devoplus.DataGuardian/DataGuardianEngine.cs:63-69 | the loop over the groups computes Σ min(count, cap)·weight |
| Engine.FiltersObeyedWithoutNer | src/Devoplus.DataGuardian/DataGuardianEngine.cs:47-50 | without NER every returned hit obeys the include and exclude sets |
| Engine.NerBypassesFilters | src/Devoplus.DataGuardian/DataGuardianEngine.cs:47-59 | with NER on, every confident entity becomes a returned hit whatever the type filters say |
| Engine.CountAppend | src/Devoplus.DataGuardian/DataGuardianEngine.cs:62 | one more hit raises its own type's count by one and leaves the others |
| Engine.TermMonotone | src/Devoplus.DataGuardian/DataGuardianEngine.cs:68 | with a non-negative cap a type's share is non-negative and never drops when a hit is added |
| Engine.WeightedSumMonotone | src/Devoplus.DataGuardian/DataGuardianEngine.cs:63-69 | with a non-negative cap, adding a hit never lowers the weighted sum |
| Engine.RiskMonotone | src/Devoplus.DataGuardian/DataGuardianEngine.cs:63-71 | with a non-negative cap and a curve for K ≥ 0 (zero at zero, non-decreasing), adding a hit never lowers the risk |
| Engine.CountsPartitionHits | src/Devoplus.DataGuardian/DataGuardianEngine.cs:62 | the per-type counts add up to the number of hits |
| Engine.DefaultIbanWeightAsWritten | src/Devoplus.DataGuardian/DataGuardianOptions.cs:14 | under the defaults as written, an IBAN hit weighs 1 instead of 8. "IBAN" is not a redacted type either (line 50) |
| Engine.DefaultIbanWeightCorrected | src/Devoplus.DataGuardian/Recognizers/IBANRecognizer.cs:39 | with the defaults keyed by the emitted type "IBAN", an IBAN hit weighs 8 and is redacted |
| Redaction.Insert | src/Devoplus.DataGuardian/DataGuardianMiddleware.cs:149 | inserting a hit adds exactly that hit to the multiset |
| Redaction.SortDesc | src/Devoplus.DataGuardian/DataGuardianMiddleware.cs:149 | the sorted list is a permutation of the selected hits |
| Redaction.SortDescSorted | src/Devoplus.DataGuardian/DataGuardianMiddleware.cs:149 | the sorted list is in descending order of start |
| Redaction.SortDescStable | src/Devoplus.DataGuardian/DataGuardianMiddleware.cs:149 | the sort is stable: the hits with a given start keep their original order |
| Redaction.Star | src/Devoplus.DataGuardian/DataGuardianMiddleware.cs:153-161 | one MaskAll or Partial hit keeps the length, changes characters only to '*', and only inside the hit's span |
| Redaction.HashSpan | src/Devoplus.DataGuardian/DataGuardianMiddleware.cs:162-168 | one Hash hit changes the length by 12 − length and keeps the text before and after the span |
| Redaction.ApplyHit | src/Devoplus.DataGuardian/DataGuardianMiddleware.cs:151-169 | one iteration fails exactly for a fitting Hash hit of negative length. A hit that does not fit leaves the text unchanged, and MaskAll and Partial keep the length |
| Redaction.Redacted | src/Devoplus.DataGuardian/DataGuardianMiddleware.cs:146-172 | with MaskAll or Partial, redaction always succeeds and keeps the length of the text |
| Redaction.Redact | src/Devoplus.DataGuardian/DataGuardianMiddleware.cs:146-172 | the in-place rewrite computes the redacted types' hits, sorted by descending start, applied one by one. A hit is skipped when it does not fit the current buffer, and a failure happens only in the Hash case of a negative length |
| Redaction.MaskAllSpan | src/Devoplus.DataGuardian/DataGuardianMiddleware.cs:153-156 | the character-by-character MaskAll loop over a fitting hit yields the one-hit masking: every position of the span becomes '*' and every other position is kept |
| Redaction.PartialSpan | src/Devoplus.DataGuardian/DataGuardianMiddleware.cs:157-161 | the Partial loop, which writes back the first two and last two characters of the span, yields the one-hit partial masking: only the span's inner positions become '*' |
| Redaction.HashReplace | src/Devoplus.DataGuardian/DataGuardianMiddleware.cs:162-169 | remove-then-insert on a fitting hit of non-negative length yields the text before the span, the first 12 digest characters of the span, and the text after it |
| Redaction.ApplyAllStars | src/Devoplus.DataGuardian/DataGuardianMiddleware.cs:153-161 | MaskAll and Partial never fail and keep the length. They star exactly the positions some fitting hit stars and keep every other character |
| Redaction.StarIdempotent | src/Devoplus.DataGuardian/DataGuardianMiddleware.cs:153-161 | masking an already masked text with the same hits changes nothing |
| Redaction.StarOrderIrrelevant | src/Devoplus.DataGuardian/DataGuardianMiddleware.cs:149-161 | for MaskAll and Partial, any reordering of the hits gives the same text |
| Redaction.PartialShortSpansUnchanged | src/Devoplus.DataGuardian/DataGuardianMiddleware.cs:157-160 | Partial leaves spans of four characters or fewer untouched |
| Redaction.MaskAllStarsSpans | src/Devoplus.DataGuardian/DataGuardianMiddleware.cs:153-155 | MaskAll keeps the length, stars every position of every fitting hit, and keeps every position outside them |
| Redaction.HashReplaces | src/Devoplus.DataGuardian/DataGuardianMiddleware.cs:162-168 | a fitting hit is replaced by the first 12 characters of its digest, with the prefix and suffix kept, so the length changes by 12 − length. A negative length fails |
| Redaction.SkipLeavesUnchanged | src/Devoplus.DataGuardian/DataGuardianMiddleware.cs:152 | a hit starting before the buffer or running past its end leaves the buffer unchanged, in every style |
| Redaction.PrefixPreserved | src/Devoplus.DataGuardian/DataGuardianMiddleware.cs:149-170 | in every style, the text below the smallest applied start is never changed |
| Redaction.RedactStarsSelected | src/Devoplus.DataGuardian/DataGuardianMiddleware.cs:149-161 | with MaskAll or Partial, `Redact` succeeds and stars exactly what the fitting hits of the redacted types star |
| Middleware.TextContentIgnoresCase | src/Devoplus.DataGuardian/DataGuardianMiddleware.cs:117-119 | the content-type test ignores the case of the content type |
| Middleware.JsonWithCharsetIsText | src/Devoplus.DataGuardian/DataGuardianMiddleware.cs:117-119 | "application/json; charset=utf-8" is text under the default content types, because the test is a prefix test |
| Middleware.EmptyTypeMatchesAll | src/Devoplus.DataGuardian/DataGuardianMiddleware.cs:117-119 | a configured empty content type makes every non-empty content type text |
| Middleware.IsTextContent | src/Devoplus.DataGuardian/DataGuardianMiddleware.cs:117-119 | a text content type is present and non-empty, and some type is configured. A content type equal to a configured type is text |
| Middleware.IsAllowedIff | src/Devoplus.DataGuardian/DataGuardianMiddleware.cs:130-144 | a request is inspected exactly when four conditions hold, and an exclusion wins over an inclusion. The path passes the include prefixes (if any) and no exclude prefix. The upper-cased method is in the include list (if any) and not in the exclude list |
| Middleware.IsAllowed | src/Devoplus.DataGuardian/DataGuardianMiddleware.cs:130-144 | with no include or exclude lists every request is inspected. A request with an excluded path prefix or method never is |
| Middleware.LowercaseIncludeMethodsAllowNothing | src/Devoplus.DataGuardian/DataGuardianMiddleware.cs:133-140 | methods are upper-cased and compared ordinally, so an include list whose entries all contain a lower-case letter lets no request through |
| Middleware.LowercaseExcludeMethodsIgnored | src/Devoplus.DataGuardian/DataGuardianMiddleware.cs:133-142 | exclude entries containing lower-case letters never exclude anything |
| Middleware.ResponseVerdict | src/Devoplus.DataGuardian/DataGuardianMiddleware.cs:92-106 | a response is blocked exactly when action = Block, BlockAt ≥ 0 and risk ≥ BlockAt. It is redacted exactly when action = Redact, risk ≥ RedactAt and there are hits |
| Middleware.ShouldBlock | src/Devoplus.DataGuardian/DataGuardianMiddleware.cs:92 | a block needs a non-negative risk. Under another action, or with a negative BlockAt, nothing is blocked |
| Middleware.ShouldRedact | src/Devoplus.DataGuardian/DataGuardianMiddleware.cs:92-99 | a redaction needs hits, and it happens only under the Redact action, so never where a block could happen at any risk |
| Middleware.VerdictMonotone | src/Devoplus.DataGuardian/DataGuardianMiddleware.cs:60-99 | a higher risk never lifts a block or a redaction |
| Middleware.DefaultsOnlyTag | src/Devoplus.DataGuardian/DataGuardianMiddleware.cs:92-99 | with the default options (BlockAt −1, action Tag) nothing is ever blocked or redacted |
| Middleware.NoHitsNoRedaction | src/Devoplus.DataGuardian/DataGuardianMiddleware.cs:99 | nothing is redacted without hits, whatever the risk |

## Left out

- The .NET regular-expression engine is not modelled (`\b`, backtracking, IgnoreCase, and `\d` accepting non-ASCII digits). Each recognizer receives its matches as input, as (index, value) pairs that are slices of the text with the pattern's ASCII shape.
- The e-mail and date-of-birth recognizers are regex-only, so they report every match they receive.
- The phone recognizer wraps libphonenumber. It is the opaque validity predicate `phoneValid`.
- ONNX inference, the softmax and the tokenizer adapter (`MicrosoftMlTokenizerAdapter.cs`) are not part of this model. `Ner.TokenEntities` takes each token's arg-max label and probability as input.
- The `BertNerOnnx` constructor, its file checks, and the engine's `File.Exists` gate are folded into the boolean `nerReady`. The recognizer's output is the function `nerOut`.
- `Math.Exp`, `Math.Round` and the option K (default 0.15) are the abstract `curve`. It is required to be 0 at 0, non-decreasing and at most 10 for a non-negative sum, which the rounded 10·(1 − e^(−K·sum)) is for every K ≥ 0.
- Doubles (weights, thresholds, confidences) are exact reals, with no rounding.
- SHA-256 and `Convert.ToHexString` are the abstract `hex`, which gives 64 characters for every input.
- `Invoke`'s HTTP plumbing is not modelled: stream buffering, body reading, header writing, `FormatCounts`, `MaxBodySizeBytes`, and the `AnalyzeRequests`/`AnalyzeResponses` switches. Only its block and redact conditions are.
- Case mapping (`ToLowerInvariant`, `ToUpperInvariant`, `OrdinalIgnoreCase`) covers ASCII letters only.
- `Start + Length` is not modelled as a 32-bit sum, and overflow is not modelled.
- The case-insensitive comparer of the content-type set is not modelled. `IsTextContent` already compares ignoring case.
- Dictionary enumeration order is not modelled. The groups are summed in first-occurrence order, and the sum of reals does not depend on the order.
- Engine.RiskMonotone: the curve stands for K ≥ 0. The source accepts any K, and for K < 0 the risk falls as hits are added, which the lemma does not cover.
- Positions and lengths count Unicode characters, while the source's `Match.Index`, `Length`, `IndexOf` and `StringBuilder` offsets count UTF-16 code units. The two differ for text holding characters outside the Basic Multilingual Plane (for "😀 a@b.c" the source's EMAIL hit starts at 3, the model's at 2).
- Engine.AnalyzeDetailed: the risk is stated only through `curve`. Its two-decimal rounding is not modelled, nor is the exact value 10·(1 − e^(−K·sum)).

## Findings

| source | as written | input that shows it | evidently intended | confidence | as-written member | corrected member |
|---|---|---|---|---|---|---|
| src/Devoplus.DataGuardian/DataGuardianOptions.cs:14 | the default weight and the default redaction entry (line 50) are keyed "IBAN_TR", but the IBAN recognizer emits the type "IBAN" (IBANRecognizer.cs:39) | a text holding one valid IBAN under the default options: the hit weighs 1, not 8, and Redact never masks it | key both defaults by "IBAN", so an IBAN hit weighs 8 and is redacted | not executed | Engine.DefaultIbanWeightAsWritten | Engine.DefaultIbanWeightCorrected |
