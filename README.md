# Currency-rate bot: rate cache and conversion engine

This project models the core of a Telegram bot that quotes the Central Bank of
Russia's daily exchange rates and converts amounts between currencies. All of
the core is in `main.py`. The model has three parts.

- **Feed to snapshot** (`update_rates`). Every `Valute` element of the daily
  feed becomes one record of five raw strings, in document order. The list is
  written to the key-value store under `"currencies"` with a 3600-second
  expiry, and only after every element has been read. An element that lacks a
  child aborts the refresh before anything is stored.
- **Get-or-refresh cache protocol** (`rates` and `exchange`). A handler reads
  the key. A missing value triggers one refresh and one re-read; a present
  value is used with no write. `/rates` answers with a fixed header and one
  line per record, in stored order. The line shows `unit_value_price`
  verbatim.
- **Conversion** (`exchange`). The message text is split on single spaces and
  must give exactly four tokens. Both codes are upper-cased, and the amount
  must be accepted by `int()`. Each code is looked up as the first record with
  that `char_code`. There are three branches through the rouble (`RUB`), which
  never appears in the feed:
  - from roubles: `value / rate(to)`
  - to roubles: `value * rate(from) / 1.0`
  - otherwise: `value * rate(from) / rate(to)`

  The result is rounded to two places. A rate string is read by replacing
  every `,` with `.` and parsing the result. Every failure turns into the
  fixed usage message.

Modules:

- `Options` (`options.dfy`): the optional value.
- `PyText` (`pytext.dfy`): the Python string builtins the handlers use, as
  functions with round-trip lemmas. These are `str.split(' ')`, `str.upper()`,
  `str.replace(',', '.')`, `int()` and `float()`.
- `Feed` (`feed.dfy`): the element and record datatypes, the extraction, the
  first-match lookup and the reading of a rate string.
- `Listing` (`listing.dfy`): the `/rates` text.
- `Conversion` (`conversion.dfy`): argument parsing, the three branches,
  rounding, and a reference conversion. The reference prices both currencies
  in roubles, with the rouble at exactly 1.
- `Bot` (`bot.dfy`): the store as a class with a map of values, a map of
  expiries and a write counter. It also holds `update_rates` and both handlers
  as methods proved against the functions above. `update_rates` and `/rates`
  keep the loops of the code; `/exchange` has none.
- `Scenarios` (`scenarios.dfy`): worked conversions on a dollar/euro snapshot.

The model follows the code, including where it departs from what a user of the
bot would expect:

- Roubles to roubles gives the usage message, not the amount. `RUB` has no
  record, so the target lookup fails (main.py:122-125).
- The amount must be an integer. Zero and negative integers are accepted
  (main.py:111).
- A `/rates` request whose refresh fails gets no reply, because the exception
  leaves the handler (main.py:89-93).
- Rounding is `round(x, 2)`, taken here on exact values as round-half-to-even.

## Model

| member | source | states |
|---|---|---|
| PyText.Split | main.py:106 | `split(' ')` gives one more token than the text has spaces, and no token contains a space, so doubled spaces yield empty tokens |
| PyText.JoinSplit | main.py:106 | joining the tokens with single spaces gives the original text back: splitting loses nothing |
| PyText.SplitJoin | main.py:106 | space-free tokens joined with single spaces split back into exactly those tokens |
| PyText.Upper | main.py:109-110 | upper-casing keeps the length, turns each ASCII lower-case letter into its capital (code point 32 lower) and keeps every other character |
| PyText.UpperIgnoresCase | main.py:109-110 | two texts that differ only in ASCII case, such as `usd`, `Usd` and `USD`, upper-case to the same code |
| PyText.ReplaceChar | main.py:125 | `replace(',', '.')` keeps the length, turns every `,` into `.` and keeps every other character |
| PyText.IntRoundTrip | main.py:111 | `ParseInt` (`int()`) accepts the canonical decimal form of every integer and returns that integer, zero and negatives included |
| PyText.ParseIntRejects | main.py:111 | `ParseInt` refuses any text with a character that is neither a digit nor a leading sign (`10.5`, `abc`) |
| PyText.ParseFloatParts | main.py:125 | `ParseFloat` (`float()`) reads `ip.fp` as the integer part plus the fraction digits over a power of ten |
| Feed.Extract | main.py:31-46 | the extraction succeeds exactly when every element has all five children; the records then match the elements one to one, in document order, field by field |
| Feed.FirstIndex | main.py:121-122 | the index found holds the code, and no earlier record does |
| Feed.Lookup | main.py:121-122 | lookup finds nothing exactly when no record has the code; what it finds has that code and is in the snapshot |
| Feed.LookupFirst | main.py:121-122 | among several records with the code, the earliest one is returned |
| Feed.LookupIgnoresLater | main.py:121-122 | records after the first match never affect the lookup |
| Feed.RateValueComma | main.py:125 | `RateValue` reads a rate written with a decimal comma (`90,0000`) as the decimal it denotes |
| Feed.RateValueNormalised | main.py:130 | `RateValue` reads the comma form and the dot form of a rate as the same number |
| Listing.RateLineCount | main.py:98 | `RateLine` is exactly one line when the code and the price hold no line break |
| Listing.RateLinesAppend | main.py:96-98 | `RateLines` of two record lists placed one after the other are the lines of the first list followed by those of the second |
| Listing.RateLinesAt | main.py:97-98 | record `i`'s line comes after the lines of all earlier records and before those of all later ones |
| Listing.RatesTextLineCount | main.py:96-98 | when no code or price holds a line break, `RatesText` has the header's line breaks plus exactly one per record |
| Conversion.ParseRequest | main.py:106-111 | the argument count is refused exactly when the text does not contain exactly three spaces |
| Conversion.ParseRequestAccepts | main.py:106-111 | every command with single spaces and a canonical integer amount is accepted, with both codes upper-cased and the amount as written |
| Conversion.ParseRequestIgnoresCase | main.py:109-110 | commands whose codes differ only in ASCII case ask for the same conversion |
| Conversion.FractionalAmountRejected | main.py:111 | an amount such as `10.5` is refused as not an integer, even in an otherwise well-formed command |
| Conversion.ExtraSpaceRejected | main.py:106-108 | adding one space to a text with exactly three refuses the argument count |
| Conversion.Round2 | main.py:126 | the result is a whole number of hundredths within 0.005 of the input |
| Conversion.Round2Exact | main.py:134 | an amount already in whole hundredths is left unchanged |
| Conversion.Round2HalfEven | main.py:140 | a value exactly halfway between two hundredths rounds to the even one |
| Conversion.RateOfStored | main.py:125 | `RateOf` reads a found record's `ip,fp` rate as its decimal value, and a missing record is an unknown currency |
| Conversion.UnitRate | main.py:125 | for a code other than `RUB`, the missing-currency failure happens exactly when the snapshot lacks the code |
| Conversion.Priced | main.py:136-141 | the cross branch, through which the reference `Uniform` also prices: success exactly when both rates are available and the divisor is non-zero; the result is a whole number of hundredths within 0.005 of `amount * p / q` |
| Conversion.ConvertRounded | main.py:124-141 | unless both codes are `RUB`, every number a conversion yields is a whole number of hundredths, as `round(..., 2)` gives in all three branches |
| Conversion.FromBaseIsPriced | main.py:124-127 | the from-rouble branch `FromBase` (`value / to_value`) equals pricing with a source rate of exactly 1 |
| Conversion.ToBaseIsPriced | main.py:129-135 | the to-rouble branch `ToBase` (`value * from_value / 1.0`) equals pricing with a target rate of exactly 1 |
| Conversion.ConvertIsUniform | main.py:121-141 | unless both codes are `RUB`, `Convert` gives exactly the reference conversion `Uniform`, failures included: the rouble counts as rate 1 and the rates are read in the same order |
| Conversion.BaseToBaseRefused | main.py:122-127 | with no `RUB` record, roubles to roubles fails as an unknown currency, although the reference would give the amount back |
| Conversion.UnknownCodeNeverConverts | main.py:121-141 | a non-rouble code missing from the snapshot, on either side, never produces a number |
| Conversion.Answer | main.py:126-153 | the reply is the usage message exactly when the conversion fails; otherwise it carries the amount, both codes and the number the conversion computed |
| Conversion.ExchangeResult | main.py:105-141 | a converted reply of `Exchange` answers the parsed request with the number the conversion computed |
| Conversion.WrongTokenCountIsUsage | main.py:106-108 | any text without exactly three spaces is answered with the usage message |
| Conversion.ExchangeUsageIff | main.py:145-153 | `Exchange` sends the usage message exactly when parsing or conversion fails |
| Bot.Store.constructor | main.py:17-18 | a fresh store holds no keys and has performed no writes |
| Bot.Store.Set | main.py:49 | `SET ... EX` stores the value and its expiry under the key and counts one write; a `GET` of that key then returns the value, and every other key reads as before |
| Bot.Store.Expire | main.py:49 | an expiry removes the key and its expiry and performs no write |
| Bot.Refresh | main.py:21-46 | a refresh succeeds exactly when the feed arrived and every element is complete; its records are then those of the elements, one to one and in order |
| Bot.UpdateRates | main.py:21-50 | the store is written exactly when the feed arrived and every element is complete; then there is exactly one write, of the extracted records under `"currencies"` with expiry 3600; otherwise nothing changes |
| Bot.LoadCurrencies | main.py:113-118 | a refresh happens exactly on a miss (`not data`, where a stored empty list is still a hit); a hit writes nothing; the result is the cached or refreshed snapshot; a failed refresh writes nothing |
| Bot.RatesHandler | main.py:85-100 | the reply is the header plus one line per record of the loaded snapshot, in order; there is no reply when the refresh fails; a hit leaves the store unchanged; a miss with a successful refresh stores the snapshot with expiry 3600 in one write |
| Bot.ExchangeHandler | main.py:103-153 | malformed arguments get the usage message without touching the store; otherwise the reply is the conversion on the loaded snapshot, or the usage message when loading fails; a miss with a successful refresh stores the snapshot with expiry 3600 in one write |
| Bot.TwoLoads | main.py:88-91 | after a successful load, the next one is a hit with the same snapshot; two loads write at most once, and none when the first was a hit |
| Scenarios.RoublesToDollars | main.py:124-127 | 100 roubles at 90 roubles to the dollar are 1.11 dollars |
| Scenarios.DollarsToRoubles | main.py:129-135 | 10 dollars at 90 roubles are 900 roubles |
| Scenarios.DollarsToEuros | main.py:136-141 | 10 dollars at 90 roubles are 9 euros at 100 roubles |
| Scenarios.RoublesToRoubles | main.py:124-127 | roubles to roubles is answered with the usage message |
| Scenarios.UnknownCode | main.py:145-153 | a code missing from the snapshot is answered with the usage message on either side |
| Scenarios.LowerCaseCommand | main.py:106-135 | the lower-case command `usd rub 10`, after any command word without a space, converts 10 dollars to 900 roubles |
| Scenarios.DoubledSpace | main.py:106-108 | doubling the space between the codes of a well-formed command gives the usage message |

## Left out

- The HTTP download of the feed and the XML parse (main.py:22-29) are network I/O and a foreign library. The fetched document is a parameter: a sequence of `Valute` elements with optional children, or `None` when the download or parse fails.
- An element whose child is present but empty has `.text` equal to `None` in Python. That `None` is stored and later fails or prints as `None`. The model gives a present child a string text.
- The Redis client and its connection (main.py:17-18) are an external store. It is a map of snapshots with an expiry map and a write counter. The expiry running out is an external event (`Store.Expire`); no clock is modelled.
- JSON encoding and decoding (main.py:49, 93, 118) is a library. The model treats it as the identity on the record list. A value that another client stored under the key is not modelled.
- The re-read after a refresh assumes the key did not expire in between. That would need the expiry to run out within the same request.
- Amounts too large for a float are not modelled. Converting such an integer to a float in `value / to_value` or `value * from_value` (main.py:126, 133, 139) raises `OverflowError`, which the handler turns into the usage message. Somewhat smaller amounts overflow to `inf`. The model converts every integer amount exactly.
- A failing Redis `GET` or `SET` (main.py:88-91, 113-116) is a connection error of an external service. `/exchange` would then answer with the usage message and `/rates` would not reply. The model's store never fails.
- Python floats (main.py:125-140) are floating point. Rates and results are exact reals, so binary effects such as `round(2.675, 2) == 2.67` are not captured.
- `float()` also accepts exponents, `inf`, `nan`, underscores and surrounding whitespace. `int()` also accepts underscores, surrounding whitespace and non-ASCII digits. `str.upper()` also changes non-ASCII letters. The model covers the ASCII sign-and-digit forms only, which are library grammar.
- Conversion.Answer: the reply carries the amount, codes and result as values. Formatting the result with Python's float `repr` and Markdown (main.py:127, 135, 141) is floating-point printing and UI.
- A Telegram refusal to deliver the answer would also end in the usage message, since the send is inside the `try` (main.py:143). Message delivery is I/O.
- The `/start` and `/help` texts, the dispatcher, environment loading, polling and the `print` of the stored keys (main.py:6-18, 50, 54-82, 156-162) are UI, logging and bootstrap.
- Concurrent handlers racing to refresh the cache are not modelled. Each handler runs to completion before the next one starts.
