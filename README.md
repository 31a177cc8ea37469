# iMac price alert: a verified model

The bot loads Best Buy's iMac category page, reads a title and a price text
from every product entry, keeps the entries priced strictly below
`ALERT_THRESHOLD` ($1200.00) and, when it kept any and the `DISCORD_WEBHOOK`
variable is set, posts one Discord message that lists them.

This project models that pipeline once the browser and the network are taken
away. All of it is in `main.py`.

- `price.dfy` (module `Price`) covers the price search `re.search(r"\d{1,3}(,\d{3})*\.\d{2}", ...)`.
  The regular expression's language is written as predicates (`CommaGroups`,
  `IntegerPart`, `IsNumeral`, `IsPriceToken`). "Leftmost match" is stated
  declaratively (`MatchAt`, `Leftmost`). A match is `[0-9,]*`, one `.`, then two
  digits, so its end is fixed by its start (`RunDeterminesMatch`): the `.` is the
  first character after the start that is not in `[0-9,]`. The search
  (`RunEnd`, `MatchEnd`, `Search`, `ParsePrice`) is a function proved against
  that specification. The conversion `float(m.replace(",", ""))` is `NumeralCents`,
  in integer cents. The `:.2f` rendering is `FormatCents`. The store's own
  display format is `Displayed`, for example "$1,199.99".
- `alert.dfy` (module `Alert`) holds the block of one match, `"\n\n".join`,
  the header and the payload content, `send_discord_alert`, and the final
  decision whether to send.
- `check.dfy` (module `Check`) holds `check_bestbuy`. `Outcome` says what one
  entry produces. `Alerts` is the specification of the list of matches.
  `CollectMatches` is the loop of main.py:47-63 with its invariant.
  `CheckBestBuy` is the whole run.
- `wrappers.dfy` holds the `Option` type.

Prices are integer cents. The model is exact with respect to the script's
floats, for these reasons:
- Every match has exactly two decimals, so its value is `n/100`.
- The nearest double to `n/100` is below 1200.0 exactly when `n < 120000`,
  because 1200.0 is representable and rounding is monotone.
- `:.2f` prints the same two decimals back for every price below the
  threshold.

The header formats the threshold with Python's `str()`, so it reads
`$1200.0`, not `$1200.00`. `FloatText` renders that one value and `Header`
states the resulting line.

Because the expression has no word boundaries, an ungrouped price such as
"$1234.56" is read from its second digit as 234.56 (`ParseUngroupedExample`).
The store groups thousands with commas ("$1,234.56"), and `ParseDisplayed`
proves that every price in that format is read exactly.

## Model

| member | source | states |
|---|---|---|
| Price.StripCommas | main.py:55 | `replace(",", "")`: the result has no comma and is no longer than the input; a single comma becomes empty and any other single character is kept; applied to digits and commas it leaves only digits; applied to digits alone it changes nothing |
| Price.StripCommasAppend | main.py:55 | removing commas works piecewise: the result for a concatenation is the results for its parts, concatenated, so with the single-character case every non-comma is kept in order |
| Price.RunEnd | main.py:53 | the end of the maximal run of `[0-9,]` from a start index: everything before it is in the run, and the character at it is not (or the text ends there) |
| Price.RunDeterminesMatch | main.py:53 | every match starting at index i ends three characters after the `[0-9,]` run from i, because the decimal point is the first character outside the run |
| Price.MatchUnique | main.py:53 | from a given start index at most one match exists |
| Price.MatchEnd | main.py:53 | returns the end of the match at index i when there is one; returns None exactly when no substring starting at i is in the expression's language |
| Price.Search | main.py:53 | `re.search` semantics: returns the least start index at or after `from` at which a match exists, with that match's end; returns None only when no match starts at or after `from` |
| Price.NumeralCents | main.py:55 | `float(...)` of a numeral in cents: the numeral with its commas and its point deleted, read as an integer; the digits before the point, commas removed, are the whole units |
| Price.ParsePrice | main.py:53-55 | no price exactly when the text holds no match; otherwise the price is the value of the leftmost match, commas removed, read as a decimal with two fractional digits |
| Price.LeftmostUnique | main.py:53 | the leftmost match of a text is unique, both its start and its end |
| Price.NoPointNoPrice | main.py:53-54 | a text without a decimal point holds no price |
| Price.ParseNoPriceExamples | main.py:53-54 | "999" and "Call for price" yield no price |
| Price.ParseStoreExample | main.py:52-55 | "$1,199.99" yields 119999 cents; the leading `$` is skipped because the search is not anchored |
| Price.ParseUngroupedExample | main.py:53-55 | "1234.56" yields 23456 cents: the match is "234.56" because the expression has no word boundaries |
| Price.NotIntegerPart1234 | main.py:53 | "1234" is not in `\d{1,3}(,\d{3})*`, so no match of "1234.56" starts at its first digit |
| Price.GroupedShape | main.py:52-53 | a number grouped with thousands separators is in `\d{1,3}(,\d{3})*` |
| Price.GroupedValue | main.py:55 | removing the separators from a grouped number and reading the digits gives the number back |
| Price.DisplayedToken | main.py:52-55 | in a price shown as "$d,ddd.dd", everything after the `$` is one match, and that match is worth the price |
| Price.ParseDisplayed | main.py:52-55 | parsing inverts the store's display format: every price in cents shown as "$1,234.56" is read back exactly |
| Price.NatText | main.py:57 | the integer part of `:.2f`: at least one digit, and no leading zero unless the number is 0 |
| Price.NatTextValue | main.py:57 | the decimal text of n reads back as n |
| Price.FormatCents | main.py:55-57 | `:.2f` of a price: a numeral whose integer part has no leading zero and which reads back, through the conversion of line 55, as the same price |
| Alert.Block | main.py:57 | a block is `**`, the title, `**`, a newline, the banknote sign, ` $`, then exactly the `:.2f` text of the price, which reads back as the item's price |
| Alert.Join | main.py:18 | `"\n\n".join`: empty for no blocks; otherwise the joined text ends exactly where the last block ends |
| Alert.JoinAt | main.py:18 | every block is in the joined text at its offset: blocks are laid out in order with two characters between neighbours |
| Alert.JoinSeparator | main.py:18 | the two characters between neighbouring blocks are "\n\n" |
| Alert.ThresholdText | main.py:11-20 | `str(ALERT_THRESHOLD)` is "1200.0" |
| Alert.Header | main.py:20 | the header line is "🔥 **iMacs Under $1200.0 Found!**" followed by a blank line |
| Alert.Content | main.py:18-20 | the payload content begins with the header and continues with exactly the joined blocks |
| Alert.ContentCarries | main.py:18-20 | every block is in the payload content at the header's length plus the block's offset |
| Alert.SendDiscordAlert | main.py:14-27 | send_discord_alert posts the content to the webhook exactly when the variable is set and non-empty; when it is unset or empty it only reports the missing variable |
| Alert.Decide | main.py:69-72 | a post happens exactly when the match list is non-empty and the webhook is set, and it posts the content of those matches; an empty list sends nothing; a non-empty list without a webhook reports the missing variable |
| Check.Outcome | main.py:48-63 | an entry gives a block exactly when its lookups succeeded, its price text holds a price and that price is strictly below 120000 cents; the block is the one for its title and that price |
| Check.Outcomes | main.py:47-63 | one outcome per entry, in entry order, each being what that entry alone produces |
| Check.PresentAt | main.py:57 | keeping the present values of a sequence of options keeps each one once, in order, at strictly increasing positions, and misses none |
| Check.Alerts | main.py:37-63 | the matches of a run of entries: at most one block per entry, and none without entries |
| Check.AlertsFromOutcomes | main.py:47-63 | the matches are exactly the blocks of the entries that produce one, one block per entry, in entry order, and no such entry is missed |
| Check.AlertsAppend | main.py:47-63 | entries are handled independently: the matches of two runs of entries are the matches of each, one after the other |
| Check.AlertsSnoc | main.py:47-57 | one more entry adds its block, if it produces one, after the blocks of the entries before it |
| Check.SkippedItem | main.py:47-63 | an entry that produces no block contributes nothing and does not stop the entries after it |
| Check.FailedLookupSkipped | main.py:61-63 | an entry whose lookups raised is skipped, and the loop carries on with the next entry |
| Check.UnparsableSkipped | main.py:59-60 | an entry whose price text holds no price is skipped, and the loop carries on with the next entry |
| Check.OutcomeDisplayed | main.py:53-57 | an entry shown in the store's format produces a block exactly when its price is strictly below 120000 cents, and the block shows that price |
| Check.ThresholdIsStrict | main.py:56 | "$1,200.00" produces no block; "$1,199.99" produces the block for 119999 cents |
| Check.AlertsSingle | main.py:47-60 | the matches of a single entry are its block if it produces one, and nothing otherwise |
| Check.ThreeItemScenario | main.py:47-57 | three entries, the first two below the threshold and the third not, give the first two blocks in order |
| Check.CollectMatches | main.py:37-63 | the loop that appends one block per qualifying entry ends with exactly `Alerts(items)` |
| Check.CheckBestBuy | main.py:37-72 | a run's matches are those of the page's entries, or none when loading the page failed; what it does about the alert is `Decide` applied to those matches |

## Left out

- Browser start-up, the headless options, the page load, `WebDriverWait` and `driver.quit()` (main.py:30-45, 66-67) are external. The page is an input: the sequence of entries, or None when loading failed (main.py:64-65).
- The three element lookups of main.py:49-51 are external DOM queries. Each entry is given as an optional pair of texts. None stands for any lookup that raised.
- `requests.post`, `raise_for_status` and the handling of `RequestException` (main.py:22-27) are network I/O. The model stops at the `Post(url, content)` decision. Delivery success or failure is not modelled.
- The JSON encoding of the payload is left out. Only its `content` string is modelled.
- Reading `DISCORD_WEBHOOK` from the environment (main.py:12) is left out. The value is an optional string parameter.
- Every `print` line (main.py:16, 25, 27, 45, 58, 60, 62, 65, 72) is logging only and is not modelled.
- Python's `\d` and `float()` also accept non-ASCII decimal digits. The model accepts only ASCII `0`-`9`.
- Price.NumeralCents: models `float(...)` as exact two-decimal arithmetic in cents. It does not model binary floating point. The README introduction explains why that changes no decision or output below the threshold.
- Alert.FloatText: renders only the threshold value 1200.00, the one float the script passes to `str()`. It is not a model of `str()` on floats in general, which switches to exponent notation for large values.
