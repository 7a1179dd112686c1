# A verified model of sepaqx

sepaqx turns SEPA credit-transfer data into EPC QR codes.  This project models its four
pieces of real logic in Dafny and proves what they promise, over every input, every run and
every interleaving of handlers:

- the token-bucket rate limiter that deletes idle buckets (`Limiter.dfy`, `LimiterRuns.dfy`,
  `NewLimiter.dfy`);
- the byte-budgeted LRU cache with expiry (`Cache.dfy`, `CacheRuns.dfy`) and its use in front
  of the renderer (`Handler.dfy`, `Decisions.dfy`, `CacheKeys.dfy`, `HandlerTheorems.dfy`,
  `KeyCollisions.dfy`);
- the amount readers, the IBAN check, input cleaning and the payload printer (`Text.dfy`,
  `Patterns.dfy`, `Amount.dfy`, `AmountTheorems.dfy`, `AmountAgreement.dfy`, `AmountPrinting.dfy`,
  `AmountEuro.dfy`, `Currencies.dfy`, `StrictAmounts.dfy`, `OcrAmounts.dfy`, `Iban.dfy`,
  `Validate.dfy`, `Epc.dfy`, `Payloads.dfy`, `CleanTheorems.dfy`, `CleanInputs.dfy`);
- the styled QR rasteriser (`Raster.dfy`, `RasterTheorems.dfy`, `RasterShapes.dfy`).

`dafny verify dfyconfig.toml` checks everything.

Code that changes state is modelled as methods on classes with the source's fields
(`IpLimiter`, `Bucket`, `PngCache`, `Entry`, `AmountParser`, `Image`, `Server`) or as methods
with the source's loops (`ValidIBAN`, `MapOCRDigits`, `NormalizeNumericSeparators`,
`AccumulateWhole`, `RenderStyled`).  Each is proved equal to a function of the old state, and
the results about whole runs are proved of those functions.  `NewLimiter.dfy`, `Decisions.dfy`,
`CleanInputs.dfy`, `Patterns.dfy`, `Currencies.dfy`, `StrictAmounts.dfy`, `OcrAmounts.dfy`,
`Payloads.dfy` and `RasterShapes.dfy` say what those functions answer in terms of their inputs
alone: with relations of their own, and for all inputs in both directions.

Conventions.  Instants and durations are integers in nanoseconds, token levels and angles are
reals.  One call under a mutex is one step, and the clock reading it took before the lock is a
parameter.  Texts are sequences of code points; white space is the list of
`unicode.IsSpace`, and letter case is an arbitrary mapping with the few laws in
`Text.Casing.Lawful`.  The hash is an arbitrary function, injective where a lemma says so;
the renderer is an arbitrary function of `Handler.Plan`, which holds every argument the
rendering libraries get.

## Findings

- Clock readings are taken before the lock, so calls may pass each other.  When no reading falls
  more than `skew` behind an earlier call's, deleting idle buckets is invisible exactly when an
  idle bucket refills within ttl + 1 ns less twice the skew (`CollectionInvisibleIff`).  With the
  server's five minutes, `rate * (300 - 2 * skew) >= burst` in seconds is enough; the allowed
  settings (rate down to almost 0, burst up to 1000000) do not ensure it, and readings that may go
  back by the ttl rule it out under any settings (`BackwardReadingsTell`).
- Under the same condition one address gets what a lone bucket would give it (`Isolation`), and
  only then a window always holds at most one burst and the refill (`WindowBoundIff`).  For all
  settings a window holds one further burst per ttl + 1 ns (`WindowBoundAlways`), and no policy
  admits more than the limiter, whatever the clock reads (`GreedyOptimal`).  `BoundInLockOrder`
  and `SpacedNeverDenied` hold for any settings and readings.
- CONFIG.md allows `RATE_LIMIT_RPS=0`; the code then uses 10 (`NewLimiterAnswers`).
- Whatever expires, the picture cache holds the longest front part of the recency order that fits,
  so a larger budget holds everything a smaller one holds.  It does not hit whenever the smaller
  one does: only what was evicted is drawn again and stamped anew.  That holds exactly when the
  larger cache never expires anything or the two are alike (`LargerBudgetHitsTooIff`); the
  configured ttl, 1 to 600 seconds or else 900, always expires.
- The cache goes unnoticed by a family of requests exactly when requests of the family that are
  hashed alike are drawn alike (`TransparentIff`).  For requests without `|` in their texts that
  is a condition on the key store alone (`CacheTransparentIff`): keys that print alike, and have
  one size and correction level, must agree in every fraction that is drawn
  (`KeysDistinguishedIff`).  Without `|` in the settings, a single key, keys with different names,
  or fractions of three decimals meet it.
- For all requests it never holds, unless nothing is ever drawn (`AlwaysTransparentIff`): a
  remittance text with `|` can share its hashed text with another accepted request
  (`PipeCollision`), which is then answered with the wrong picture (`WrongPictureServed`).  Not
  every `|` does harm: up to three in the name never do (`NamePipesAlone`), while four can
  (`FourNamePipesShare`); one in another field does exactly when it can be moved to the border of
  another field (`OnePipeIff`), and in general another regrouping of the pieces must be an accepted
  request (`SharesIff`).  Nobody else's `|` spoils the answer to a request without one
  (`PlainAnswersStand`).
- Cleaning lets line feeds inside a field pass.  The payload has twelve lines exactly when
  there is none (`AcceptedBuilds`, `LineFeedAccepted`).
- The IBAN check accepts check pairs 00, 01 and 99 wherever it accepts 97, 98 and 02
  (`CheckPairUnique`), and does not notice a letter of value 11 * d exchanged with a
  neighbouring digit d, some letters and digits exchanged at positions 3 and 4, which rearranging
  separates (`TranspositionDetectedIff`), nor some letters in place of digits
  (`SubstitutionDetectedIff`).  `WrongPairAccepted`, `WrongOrderAccepted`, `WrongBorderAccepted` and
  `WrongLetterAccepted` show each at accepted texts.
- A text with the word EURO can mean two amounts: "1 EURO500" is 1500 under the profile grouped by
  blanks and 10500 for the OCR reader, which takes the last letter for a zero (`TwoMeanings`);
  `EuroWordIff` says exactly when the readers agree.
- A text that names pounds, yen or francs is accepted nowhere, but that the OCR reader takes it for
  euros when it names these as well: "EUR 10 GBP" is ten euros (`ForeignRejected`,
  `OcrCurrencyIff`, `EurosOutweigh`).
- In the profile grouped by blanks the test for a dot never decides anything: no text with a dot
  matches either pattern (`GroupsOrNot`).
- A rounded module of at most two by two pixels disappears (`CentreShowsIff`), which happens at
  settings the server accepts (`ModuleDisappears`).

## Model

| member | source | states |
|---|---|---|
| `Limiter.Settings` | server/ratelimit.go:23-41 | stored settings are always usable: positive rate, burst at least 1, and a collection period of at least a second whenever buckets expire; usable ones are stored as given |
| `NewLimiter.NewLimiterAnswers` | server/ratelimit.go:23-71 | for every rate, burst and ttl, a new limiter admits exactly the first `burst` of any number of simultaneous calls of an address, and a later call exactly when the rate has earned a token since; a rate that is not positive counts as 10, a burst below 1 as 1 |
| `NewLimiter.CollectionDueIff` | server/ratelimit.go:23-81 | buckets are looked through on the first call and then after half the ttl, at least a second; never without a ttl |
| `NewLimiter.ServerIdleBounded` | server/server.go:79 | the server's limiter, whatever its rate and burst, keeps no bucket that has been idle for seven and a half minutes |
| `Limiter.IpLimiter.constructor` | server/ratelimit.go:23-41 | a new limiter has no buckets and the normalised settings |
| `Limiter.IpLimiter.Allow` | server/ratelimit.go:43-71 | one call changes the table of buckets and answers exactly as one step of the specification, with fresh bucket objects only for new addresses |
| `Limiter.IpLimiter.MaybeGC` | server/ratelimit.go:73-81 | collects when the period has passed or on the first call, and records the time |
| `Limiter.IpLimiter.GC` | server/ratelimit.go:83-92 | whatever the iteration order, exactly the buckets idle for more than ttl go |
| `LimiterRuns.Isolation` | server/ratelimit.go:43-92 | when idle buckets refill before deletion, one address is told what a lone, never deleted bucket would tell it, whatever other addresses send, for readings that go back by a bounded skew |
| `LimiterRuns.CollectionInvisibleIff` | server/ratelimit.go:43-92 | no run with readings that go back by at most `skew` can tell the collecting limiter from one that never deletes if and only if an idle bucket refills completely within ttl + 1 ns less twice the skew |
| `LimiterRuns.TellDenied` | server/ratelimit.go:49-92 | otherwise a run of 2 * burst + 3 calls gives collection away: without it a call that asks for a burst is denied |
| `LimiterRuns.TellAllAdmitted` | server/ratelimit.go:49-92 | and with collection every such call is admitted |
| `LimiterRuns.BackwardReadingsTell` | server/ratelimit.go:44-47 | readings that may go back by the ttl make collection visible under any settings |
| `LimiterRuns.ServerLimiterInvisible` | server/server.go:79 | with the server's ttl of five minutes, rate * (300 s - 2 * skew) >= burst suffices |
| `LimiterRuns.WindowBound` | server/ratelimit.go:49-71 | when idle buckets refill before deletion, at most burst + rate * (end - start) requests of an address pass between two readings, in whatever order the readings come |
| `LimiterRuns.WindowBoundIff` | server/ratelimit.go:49-92 | and this bound holds on all runs if and only if they do, for skews up to half of ttl + 1 |
| `LimiterRuns.WindowBoundAlways` | server/ratelimit.go:49-92 | for all settings, clock-ordered runs pass at most one burst, one more for each ttl + 1 ns of the window, and the refill |
| `LimiterRuns.BoundInLockOrder` | server/ratelimit.go:43-71 | the same bound between two admitted requests in lock order, even for clocks that run backwards, while the bucket is kept |
| `LimiterRuns.SpacedNeverDenied` | server/ratelimit.go:49-71 | requests at least 1/rate apart are never denied |
| `LimiterRuns.GreedyOptimal` | server/ratelimit.go:49-71 | for all settings and readings, no policy with a non-negative (rate, burst) bucket admits more in any run |
| `LimiterRuns.LimiterIsFeasibleIff` | server/ratelimit.go:49-92 | the limiter is such a policy on all clock-ordered runs if and only if idle buckets refill before deletion |
| `LimiterRuns.IdleAgeBounded` | server/ratelimit.go:30-33 | after every call the bucket just served is stored and none is idle for ttl + gcEvery, or by as much more as readings go back beyond the ttl |
| `Cache.PngCache.constructor` | server/cache.go:27-37 | an empty cache, switched off when the budget is not positive |
| `Cache.PngCache.Get` | server/cache.go:39-56 | list, map and counter stay in step; a hit moves the entry to the front, an expired entry goes |
| `Cache.PngCache.Set` | server/cache.go:58-92 | list, map and counter stay in step and within budget; too large or empty values change nothing |
| `Cache.PngCache.Overwrite` | server/cache.go:71-79 | updating an entry in place changes that entry and the counter only |
| `Cache.PngCache.PushFront` | server/cache.go:84-91 | a new key gets a new entry in front |
| `Cache.PngCache.Evict` | server/cache.go:94-102 | drops entries from the back until the budget holds; the exit for an empty list is never taken |
| `Cache.PngCache.RemoveElement` | server/cache.go:104-109 | takes one entry out of list, map and counter |
| `Cache.FitIsLongest` | server/cache.go:94-102 | eviction leaves the longest front part that fits |
| `Cache.SetKeepsNewest` | server/cache.go:58-92 | eviction never removes the entry just set |
| `Cache.GetKeepsSound` | server/cache.go:39-56 | a lookup keeps keys distinct, entries non-empty and the total within budget |
| `Cache.SetKeepsSound` | server/cache.go:58-92 | so does a store |
| `CacheRuns.RunSound` | server/cache.go:39-109 | after any interleaving of operations the cache is sound and every entry is what the last accepted Set of its key stored |
| `CacheRuns.HitIsLastSet` | server/cache.go:46-53 | a held key is found exactly until ttl after the last accepted Set of it, with the value of that Set |
| `CacheRuns.CacheIsRecencyPrefix` | server/cache.go:39-109 | used as a memo table, for every ttl and any clock readings, the cache holds the longest front part of the recency order of all keys ever used that fits, with their pictures |
| `CacheRuns.LargerBudgetHoldsMore` | server/cache.go:39-109 | LRU inclusion: for all ttls and readings, equal or not, a larger budget holds everything a smaller one holds, in the same order |
| `CacheRuns.LargerBudgetHitsTooIff` | server/cache.go:46-53 | it also hits whenever the smaller one does, on all runs, if and only if it never expires anything or the two caches are alike |
| `Handler.Server.HandleSEPA` | server/server.go:177-376 | one request goes through limiter, decision, cache and renderer in that order and leaves both tables as specified |
| `Handler.Server.DrawPicture` | server/server.go:257-376 | lookup, rendering on a miss and store |
| `Handler.Server.HandleValidate` | server/server.go:378-422 | the validating endpoint's decisions and its effect on the limiter |
| `Decisions.DecisionIff` | server/server.go:198-278 | which of the five decisions is taken, exactly: bare HEAD requests, keys that are missing or unknown, input that cannot be decoded or is refused, and everything else rendered |
| `Decisions.CheckIff` | server/server.go:387-422 | the same for the validating endpoint |
| `Decisions.AnswerIff` | server/server.go:198-376 | what is answered when nothing is cached: the picture drawn for the request's own job, or the error code |
| `Decisions.DrawnUnderKey` | server/server.go:280-372 | every argument the renderer gets for a request under a key, from that key's settings: size, correction level, colours, gradients and their defaults, style, logo and its ratio |
| `Decisions.DrawnAnonymously` | server/server.go:280-325 | and for an anonymous request: the server's size, medium correction, black on transparent, nothing else |
| `HandlerTheorems.EndpointsAgree` | server/server.go:257-278 | validation says ok exactly when generation renders, both give the same error code otherwise, and payload_build_failed never happens |
| `HandlerTheorems.PicturesKeepToTheirKind` | server/server.go:198-375 | whatever collides, an anonymous request is only ever answered with a picture drawn without style, palette, logo or key size, and a request with a key with one drawn under a key |
| `CacheKeys.PrintFixedAlikeIff` | server/server.go:564 | two fractions print alike exactly when signs and rounded values agree |
| `CacheKeys.PrintFixedShows` | server/server.go:564 | a fraction is printed as its sign and the nearest number of that many places, ties to even, with all its places |
| `CacheKeys.HashedText` | server/server.go:548-609 | the hashed text field by field for every request: kind, settings of the key in their order, texts, cents, size, correction level and ratio, each as it is printed |
| `CacheKeys.PreimageAlikeIff` | server/server.go:548-609 | requests without the separator in their texts are hashed alike exactly when kind, fields, options and the keys' texts agree and the logo ratios print alike; public and keyed requests never are |
| `CacheKeys.KeyTextAlikeIff` | server/server.go:552-583 | settings without the separator have one text exactly when names, colours, paths, styles and sizes are equal and the three fractions print alike |
| `CacheKeys.KeysDistinguishedIff` | server/server.go:552-583 | hashed texts tell keys apart exactly when keys that print alike agree in the angle of each gradient in use and, if styled, in the module radius |
| `CacheKeys.PlainKeysDistinguished` | server/server.go:552-583 | settings without separator and with at most three decimals meet it |
| `HandlerTheorems.HitsAreDrawn` | server/server.go:294-375 | however handlers interleave their lookups and stores, a hit is the picture the renderer would draw for the request, provided requests hashed like it are drawn like it |
| `HandlerTheorems.AnswerIsUncached` | server/server.go:294-375 | so is the answer in any session, whatever else is served |
| `HandlerTheorems.SharedKeySharesPicture` | server/server.go:294-298 | whenever two requests share the hashed text, the second is answered with the first one's picture |
| `HandlerTheorems.TransparentIff` | server/server.go:294-375 | the cache goes unnoticed by a family of requests if and only if those hashed alike are drawn alike |
| `HandlerTheorems.CacheTransparentIff` | server/server.go:294-375 | every sequence of requests without the separator is answered as without the cache, for every renderer, if and only if the hashed texts tell the configured keys apart |
| `HandlerTheorems.FractionCollision` | server/server.go:564 | two keys that differ only in the angle of a gradient in use, printed alike, are answered wrongly in some session |
| `HandlerTheorems.PlainAnswersStand` | server/server.go:294-375 | a request without the separator is answered as without the cache even among requests with it |
| `HandlerTheorems.PlainHitsAreDrawn` | server/server.go:294-375 | and finds only its own picture in the cache, however other handlers interleave |
| `KeyCollisions.HashedAlikeIff` | server/server.go:585-607 | under one key, requests are hashed alike exactly when their seven texts join to the same and the amounts agree |
| `KeyCollisions.PipeCollision` | server/server.go:585-605 | every accepted request whose remittance text can be cut at a separator, so that what follows fits in front of the information within 70 characters, shares its hashed text with another accepted request of a different payload |
| `KeyCollisions.WrongPictureServed` | server/server.go:294-298 | the second of the two is answered with the first one's picture, which is wrong whenever the renderer tells their arguments apart |
| `KeyCollisions.AlwaysTransparentIff` | server/server.go:294-375 | the cache goes unnoticed by all requests if and only if nothing is ever drawn |
| `KeyCollisions.NamePipesAlone` | server/server.go:585-597 | an accepted request with at most three separators, all in the name, shares its texts with no other accepted request |
| `KeyCollisions.FourNamePipesShare` | server/server.go:585-597 | with four it can: two accepted requests of different names |
| `KeyCollisions.SharesIff` | server/server.go:585-597 | in general, an accepted request shares its texts with another one if and only if another regrouping of the pieces between its separators into seven fields is accepted |
| `KeyCollisions.OnePipeIff` | server/server.go:585-597 | one with a single separator in purpose, reference, text or information does so if and only if the separator moved to another of these borders gives an accepted request |
| `Amount.AmountParser.ParseAmountEUR` | validate/amount.go:23-86 | the 64-bit reader computes the specified cents or the specified error, without overflow |
| `Amount.AccumulateWhole` | validate/amount.go:77-80 | twelve digits accumulate to their value within 64 bits |
| `Amount.AccumulateCents` | validate/amount.go:62-85 | splitting, padding and accumulating give the cents |
| `Amount.NormalizeAmountInputLenient` | validate/amount.go:161-185 | the OCR reader's filter loop keeps exactly digits and separators |
| `Amount.MapOCRDigits` | validate/amount.go:187-206 | the mapping loop replaces exactly O, o, I and l with a numeric neighbour |
| `Amount.NormalizeNumericSeparators` | validate/amount.go:246-283 | choosing the decimal separator and rebuilding |
| `Amount.CheckRebuilt` | validate/amount.go:284-308 | the guards on the rebuilt number, two of which can never fire, and a third only for two dots |
| `AmountTheorems.SeparatorsConserveDigits` | validate/amount.go:246-309 | on any text of digits and separators, exactly when reading fails, that only two of the guards can fire, and that success keeps every digit in order, adding at most one leading zero |
| `AmountAgreement.LenientExtendsStrict` | validate/amount.go:35-51 | on texts of digits, separators and blanks with at most one euro marker anywhere, the OCR reader agrees with automatic mode and all four profiles |
| `AmountAgreement.NoTwoMeanings` | validate/amount.go:35-51 | so no such text means two amounts, whatever modes and switch settings read it |
| `AmountAgreement.DollarsRejected` | validate/amount.go:131-145 | a text that names dollars is accepted in no mode |
| `Patterns.DecimalIff` | validate/amount.go:12-14 | the predicate used for the decimal patterns accepts exactly the texts that match the regular expression |
| `Patterns.GroupedIff` | validate/amount.go:15-16 | so does the one for the grouped patterns |
| `Currencies.OcrCurrencyIff` | validate/amount.go:221-244 | in OCR mode a currency is reported exactly when the text as sent names it, by code in any letter case or by sign, first in the order dollars, pounds, yen, francs; euros keep all but dollars from being reported |
| `Currencies.ForeignRejected` | validate/amount.go:131-185 | a text that names dollars is accepted in no mode, format or switch setting; nor is one that names pounds, yen or francs, unless it is read in OCR mode and names euros |
| `OcrAmounts.EurosOutweigh` | validate/amount.go:225-233 | "EUR 10 GBP" is accepted as ten euros in OCR mode |
| `Currencies.StrangeRejected` | validate/amount.go:131-159 | no strict reader accepts a text with a character that is no digit, separator or blank and no part of a marker |
| `Currencies.StrictReports` | validate/amount.go:131-159 | the strict readers report no currency but dollars, and not when euros are named too |
| `Currencies.UnreadIff` | validate/amount.go:23-54 | a missing amount is reported exactly for blank texts, an unknown format exactly for other texts under a format that is none of the six, or seven in OCR mode |
| `StrictAmounts.StrictAcceptsIff` | validate/amount.go:88-159 | a text of digits, separators, blanks and at most one euro marker is accepted exactly when its words, joined by single blanks, match the regular expression of the format and one to twelve digits stand before the point; the cents are those digits and the ones behind, filled up to two |
| `StrictAmounts.DollarsReportedIff` | validate/amount.go:88-159 | with a dollar marker instead the currency is reported exactly when something is left that matches the profile; otherwise the amount is invalid |
| `OcrAmounts.OcrAcceptsIff` | validate/amount.go:161-309 | the OCR reader accepts any text at all exactly when it names no dollars, no other currency without euros, and the figures around the decimal separator, once misread digits are put right, are in range; the cents are what the figures are worth |
| `OcrAmounts.NoiseUndoneIff` | validate/amount.go:187-219 | misread digits are put right exactly when each is beside a digit, separator or blank |
| `OcrAmounts.NoiseHarmless` | validate/amount.go:161-219 | then the noisy text reads as the clean one, whatever blanks are around it |
| `AmountEuro.EuroWordIff` | validate/amount.go:187-206 | around the word EURO, the OCR reader agrees with a strict reader if and only if nothing but blanks follows the word, or a zero in its place does no harm: only zeros before it in the whole part and a digit to spare, or cents of a single zero, or nothing but zeros |
| `AmountEuro.TwoMeanings` | validate/amount.go:187-206 | "1 EURO500" means 1500 under one profile and 10500 in OCR mode |
| `AmountPrinting.DecimalRoundTrip` | validate/amount.go:94-104 | dot and comma printings of every amount below 10^12 read back under their profiles |
| `AmountPrinting.GroupedRoundTrip` | validate/amount.go:105-125 | so do space- and dot-grouped printings |
| `AmountPrinting.AutomaticRoundTrip` | qr/epc.go:16 | the payload's amount text, and the same without EUR, read back in automatic mode, strict and OCR |
| `Iban.ValidIBAN` | validate/iban.go:3-35 | the streaming check decides whether the whole letter-expanded rearranged number is 1 mod 97 |
| `Iban.CheckPairUnique` | validate/iban.go:14-34 | of the pairs 02..98 exactly the prescribed one, 98 minus the remainder, is accepted; in all, those congruent to it |
| `Iban.SubstitutionDetected` | validate/iban.go:14-34 | replacing one digit by a digit or one letter by a letter is always noticed |
| `Iban.SubstitutionDetectedIff` | validate/iban.go:9-34 | replacing any character by any other is noticed unless it is a letter for a digit, or the reverse, that leaves the same remainder after what precedes it |
| `Iban.TranspositionDetectedIff` | validate/iban.go:14-34 | exchanging any two neighbours is noticed unless they are equal or a letter of value 11 * d and the digit d; at positions 3 and 4, which rearranging separates, two digits or two letters are always noticed and a mixed pair unless the stated sum is 9 modulo 97 |
| `Iban.WrongPairAccepted` | validate/iban.go:34 | an accepted text with check digits 97 that is accepted with 00 as well |
| `Iban.WrongOrderAccepted` | validate/iban.go:34 | accepted texts that differ by an exchange of "B" and "1" |
| `Iban.WrongBorderAccepted` | validate/iban.go:14-34 | accepted texts that differ by an exchange at positions 3 and 4 |
| `Iban.WrongLetterAccepted` | validate/iban.go:34 | accepted texts that differ by a letter for a digit |
| `Text.IsSpaceIff` | validate/validate.go:40-48 | blanks are exactly the 25 code points with the Unicode property White_Space |
| `CleanInputs.CleansToIff` | validate/validate.go:39-110 | which inputs are cleaned to which result, field by field: scheme missing or in any letter case, blanks around, spaces inside and any letter case of the IBAN, letter case of the BIC, texts cut to their lengths, GDDS for no purpose |
| `CleanInputs.RefusedIff` | validate/validate.go:47-96 | which input is refused for what, exactly, and in which order fields are judged |
| `Patterns.BicIff` | validate/validate.go:11 | the predicate used for BICs accepts exactly the texts that match the regular expression |
| `CleanTheorems.ResultsIff` | validate/validate.go:39-110 | what cleaning can produce, exactly: every result within the bounds and shapes whose texts end in a blank only where they were cut off, and nothing else |
| `CleanTheorems.AcceptedIsStable` | validate/validate.go:86-109 | lengths, codes, range and exclusivity of every accepted request |
| `CleanTheorems.StableRecleans` | validate/validate.go:39-110 | cleaning any such request again only drops trailing blanks of its texts |
| `CleanTheorems.CleaningStabilises` | validate/validate.go:39-121 | an accepted request offered again is accepted in either mode, and a third pass changes nothing |
| `CleanTheorems.AcceptedBuilds` | qr/epc.go:8-34 | accepted requests always build at most 365 characters, which split into twelve lines giving back every field and the cents exactly when no field has a line feed |
| `CleanTheorems.LineFeedAccepted` | validate/validate.go:41-59 | an accepted request whose payload is not twelve lines |
| `Payloads.PrintedIff` | qr/epc.go:16 | a number is printed as the one numeral without leading zeros that has its value |
| `Payloads.BuildsIff` | qr/epc.go:8-34 | for any arguments: refused exactly for a missing field, an amount below one cent, or two kinds of remittance; otherwise the twelve lines in order, the amount with its euros, a point and two digits of cents |
| `Epc.SplitsBackIff` | qr/epc.go:18-33 | joined lines split back exactly when none contains the separator |
| `Raster.RenderStyled` | qr/round.go:10-74 | the painted picture is the specified one, pixel by pixel |
| `Raster.Image.FillRect` | qr/round.go:76-82 | inks the rectangle and nothing else |
| `Raster.Image.FillRoundedRect` | qr/round.go:84-106 | inks the rounded rectangle and nothing else |
| `Raster.Image.ApplyCornerRadius` | qr/round.go:108-137 | clears exactly the pixels outside the corner arcs |
| `Raster.PaintModule` | qr/round.go:38-65 | one dark module inks its own shape and nothing else |
| `RasterShapes.PictureIff` | qr/round.go:10-74 | the picture at any size: a pixel is inked exactly when some dark module has it in its cell within its arcs and the corners spare it |
| `RasterShapes.ModuleShape` | qr/round.go:38-65 | a dark module inks its cell within quarter circles whose radius is, of the shorter side, the set part, or half for "blob" and a quarter for "rounded" when none is set; every other style fills the cell |
| `RasterShapes.CellCorner` | qr/round.go:84-106 | the corner pixel of a cell is clear exactly when the radius is not zero |
| `RasterShapes.CellPlace` | qr/round.go:16-60 | a cell lies between the pixels nearest to its equal share of the picture, four modules or the set quiet zone from the sides, at least one pixel wide and high |
| `RasterShapes.CornerShape` | qr/round.go:108-137 | rounding clears exactly the pixels beyond quarter circles of the radius, cut down to half the width and height |
| `RasterTheorems.WidthBounds` | qr/round.go:51-54 | neighbouring edges are the scale apart, rounded down or up |
| `RasterTheorems.CellsTile` | qr/round.go:51-60 | cells tile the symbol without gap or overlap and differ by at most one in size |
| `RasterTheorems.QuietZoneClear` | qr/round.go:16-65 | nothing is inked outside the symbol |
| `RasterTheorems.SquareIsExact` | qr/round.go:61-62 | without rounding every pixel of a cell shows its module |
| `RasterTheorems.CentreShowsIff` | qr/round.go:51-65 | the centre pixel shows the module unless the cell is rounded and at most two by two |
| `RasterTheorems.ModuleDisappears` | qr/round.go:84-106 | at 512 pixels, 133 modules and a quiet zone of 20, a dark module rounded by a quarter leaves its centre clear |
| `RasterTheorems.SamplingRecovers` | qr/round.go:10-74 | sampling cell centres gives back every matrix |
| `RasterTheorems.CornersSpareSymbol` | qr/round.go:108-137 | a corner radius inside the quiet zone clears no pixel of the symbol |
| `RasterTheorems.CornersTwice` | qr/round.go:108-137 | rounding the corners of an image a second time changes nothing, and neither time inks a pixel |
| `RasterTheorems.CornersMirror` | qr/round.go:108-137 | images that mirror each other still do after both are rounded |

## Left out

- Floating-point rounding: tokens, angles and radii are reals and pixel edges are rounded
  exactly, so results at the edge of float precision are not captured.
- Thread interleavings inside a mutex section, and the saturation of Go durations.
- `logoCache`, which is the picture cache without expiry, and the reading of logo files: a logo
  is taken to be determined by its path.
- The nil receiver tests of the caches: an object always exists here.
- QR encoding, PNG encoding, recolouring, transparency and logo scaling: they are the arbitrary
  renderer.  SHA-256 is an arbitrary hash, injective where needed.
- HTTP plumbing, JSON and query decoding (a request carries its decoded input or none), client
  address lookup, key extraction, log limiting, error texts and the error-to-field mapping.
- TLS, configuration loading, the key store file and the command line.
- Invalid UTF-8, and letter-case mappings beyond the stated laws.
- StrictAcceptsIff: is stated for texts of digits, separators and blanks with at most one euro marker;
  `StrangeRejected` is about all texts with other characters, and texts with several markers or with
  pieces of them have no acceptance condition of their own.
- The word EURO is outside the texts of `LenientExtendsStrict`; `EuroWordIff` is about it.
- CacheIsRecencyPrefix: is stated for the handler's lookup followed by a store on a miss, one
  request at a time, and pictures that fit the budget.
- SamplingRecovers: assumes at least three pixels a module for rounded styles, as smaller rounded
  cells can lose their centre; `CentreShowsIff` says when.
