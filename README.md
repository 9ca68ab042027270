# Drom listing-card parser, modelled in Dafny

This project models the text-to-record normalisation of `DromPage.get_cards`
in `parser/main.py` of DromPriceRegressor, a scraper for used-car listings on
auto.drom.ru. For each listing card on a results page, `get_cards` reads:

- the title (`"<brand> <model words>, <year>"`);
- the compact spec strings (engine, fuel, transmission, drive, optional mileage);
- the price;
- the rows of the detail table;
- the VIN-report block.

It turns these texts into one dictionary of typed fields and returns the
list of dictionaries in card order.

The model takes the texts the page shows as its inputs (`DromCard.Card`). It
does not model the browser calls that fetch them.

- `results.dfy` (`Results`): `Result`, `Option`, and the Python exceptions the parser can raise.
- `py_str.dfy` (`PyStr`): the `str` operations the parser uses:
  - `split(sep)`, `sep.join`, `rstrip`/`lstrip`/`strip` with a set of characters;
  - `replace(c, "")` and argument-less `split()`;
  - with their round-trips and characterisations.
- `py_int.dfy` (`PyInt`): `int()` on ASCII decimal digit strings, with its round-trip against `str()`.
- `drom_card.dfy` (`DromCard`): the field parsers of one card and `ParseCard`:
  - the whole card as a pure function;
  - steps taken in the order the source evaluates them, so the first exception raised is the one reported.
- `drom_page.dfy` (`DromPage`): the loops of `get_cards` as methods, proved against the functions:
  - the row loop filling the label→value map (`CollectSpecs`);
  - one pass of the card loop, assigning the record's fields step by step (`BuildCardInfo`);
  - the card loop (`GetCards`).
- `drom_card_examples.dfy` (`DromCardExamples`): worked examples on texts as the site shows them.

Behaviour worth knowing, all stated and proved in the model:

- A title must contain `", "` exactly once. With none, or with two or more,
  the tuple unpacking raises and the whole call aborts.
- The year is `int()` of the whole text after the comma. No `год` suffix is
  stripped, so `"2019 год"` is rejected (`YearWithSuffix`).
- Mileage is read only when there are exactly five spec items. A list of six
  or more gives mileage 0.
- Spec item 2 is never read: replacing it leaves the card's outcome unchanged
  (`ParseCardIgnoresItem2`). The transmission comes from the detail table.
- A VIN block of 3 to 6 items always raises, because item 6 is read.
- `was_driven_by_legal_person` is true when item 3 is *not* the text "Был во
  владении у юр. лица". `is_under_credit` is true when item 6 *is* the text
  "Ограничений не обнаружено" (no restrictions found). Both comparisons look
  inverted. They are kept as written.

## Model

| member | source | states |
|---|---|---|
| `PyStr.Split` | parser/main.py:30-32 | `s.split(sep)` has at least one piece, no piece contains `sep`, and joining the pieces with `sep` gives back `s` |
| `PyStr.JoinEnds` | parser/main.py:35 | `sep.join(parts)` starts with the first part and ends with the last; `Split` proves joining undoes splitting |
| `PyStr.SplitNoSeparator` | parser/main.py:30-32 | a text without the separator splits into the one-element list `[s]` |
| `PyStr.SplitAtFirst` | parser/main.py:30-31 | when no occurrence of `sep` starts inside `a`, `(a + sep + b).split(sep)` is `[a]` followed by the pieces of `b` |
| `PyStr.FindFrom` | parser/main.py:30-31 | the index `split` cuts at is an occurrence of `sep`, and no earlier index from the start position is one |
| `PyStr.RStrip` | parser/main.py:31-39 | `rstrip(chars)` returns a prefix of the text; everything it removed is in the set; its last character is not |
| `PyStr.LStrip` | parser/main.py:36 | `lstrip(chars)` returns a suffix of the text; everything it removed is in the set; its first character is not |
| `PyStr.RStripExact` | parser/main.py:31-45 | `rstrip` removes exactly a trailing run of set characters that follows a character outside the set |
| `PyStr.Strip` | parser/main.py:36 | `strip(chars)` returns a text no longer than its input that neither starts nor ends with a set character; `StripExact` and `StripSlice` fix which text |
| `PyStr.StripExact` | parser/main.py:36 | `strip(chars)` of `pre + core + post` is `core` when `pre`/`post` are set characters and `core` starts and ends outside the set |
| `PyStr.StripSlice` | parser/main.py:36 | whatever `strip(chars)` returns is a slice of the text bounded on both sides by runs of set characters |
| `PyStr.Delete` | parser/main.py:40 | `replace(c, "")` leaves no `c` in the text |
| `PyStr.DeleteKeepsOthers` | parser/main.py:40 | `replace(c, "")` keeps every other character with its multiplicity: the result's multiset is the text's with `c` removed |
| `PyStr.DeleteAbsent` | parser/main.py:40 | `replace(c, "")` on a text without `c` returns the text unchanged |
| `PyStr.DeleteConcat` | parser/main.py:40 | deleting a character commutes with concatenation, so the remaining characters keep their order |
| `PyStr.SplitWhitespace` | parser/main.py:72 | `split()` yields non-empty whitespace-free words, and yields none only when the text is all whitespace |
| `PyStr.OnlySpaceNoWords` | parser/main.py:72 | conversely, an all-whitespace text (the empty text included) splits into no words |
| `PyStr.FirstWord` | parser/main.py:72 | `(ws + w + rest).split()[0] == w` for leading whitespace `ws`, a word `w`, and `rest` empty or starting with whitespace |
| `PyInt.DecimalValue` | parser/main.py:36-45 | the value of a digit string is below 10 to the power of its length |
| `PyInt.Int` | parser/main.py:36-45 | `int(text)` succeeds exactly on non-empty ASCII digit strings, with a value in `[0, 10^len)` |
| `PyInt.IntRoundTrip` | parser/main.py:41 | `int(str(n)) == n` for every non-negative `n` |
| `PyInt.DecimalValueAppend` | parser/main.py:40-45 | the value of `a + b` is the value of `a` shifted past the digits of `b`, so leading zeros do not matter |
| `DromCard.Unpack2` | parser/main.py:30-31 | a successful `a, b = s.split(sep)` gives `s == a + sep + b` with neither piece containing `sep`; failure is an unpack ValueError with a count other than 2 |
| `DromCard.Unpack2NoSeparator` | parser/main.py:30-31 | a text without the separator fails to unpack with one value where two were expected |
| `DromCard.Unpack2Complete` | parser/main.py:30-31 | any two separator-free texts joined by `", "` or `" ("` unpack back into exactly those two texts |
| `DromCard.SplitName` | parser/main.py:32-35 | the brand has no space; for a name with a space `brand + " " + model == name`; a name without one gives `(name, "")` |
| `DromCard.SplitNameComplete` | parser/main.py:32-35 | for a space-free `brand`, the name `brand + " " + model` yields exactly that brand and that model |
| `DromCard.SpecField` | parser/main.py:38-39 | `specs[i].rstrip(",")` succeeds iff `i` is in range, gives a prefix of the item followed only by commas, and raises IndexError otherwise |
| `DromCard.ParsePower` | parser/main.py:36 | the engine power is the value of a digit string that sits in the text between runs of `' ' 'л' '.' 'с' ')'` |
| `DromCard.ParsePowerComplete` | parser/main.py:36 | any digit string wrapped in those unit characters reads as its own value |
| `DromCard.ParseCapacity` | parser/main.py:37 | the capacity text is a prefix of the item followed only by `' '`/`'л'` and does not itself end in one |
| `DromCard.ParsePrice` | parser/main.py:40 | a price that parses is non-negative |
| `DromCard.ParsePriceIgnoresSpace` | parser/main.py:40 | inserting a space anywhere in the price text does not change what it reads as |
| `DromCard.ParsePriceGrouped` | parser/main.py:40 | digit groups joined by spaces (`"1 250 000"`) read as the number their concatenated digits spell |
| `DromCard.GroupedDigits` | parser/main.py:40-45 | deleting the spaces from space-joined digit groups leaves exactly their concatenation |
| `DromCard.ParseMileage` | parser/main.py:44-47 | mileage is 0 unless the spec list has exactly five items, and is never negative |
| `DromCard.ParseMileageGrouped` | parser/main.py:44-45 | a fifth item of space-separated digit groups followed by `км` characters reads as the number the digits spell |
| `DromCard.SpecTable` | parser/main.py:54-61 | a label is in the table iff some row has both its `th` (that label) and its `td`; rows missing either are skipped |
| `DromCard.SpecTableLastWins` | parser/main.py:55-59 | a repeated label keeps the value of its last complete row |
| `DromCard.Lookup` | parser/main.py:62-66 | `table.get(label, "-")` gives the label's value when the label is present, and anything other than `"-"` only for a present label; `LookupField` ties it to the rows |
| `DromCard.LookupField` | parser/main.py:62-66 | a table field is the value of the last complete row with its label, and `"-"` when no complete row has it |
| `DromCard.ButtonText` | parser/main.py:71-72 | reading an item's button succeeds exactly when the item has a button, and gives its text |
| `DromCard.LeadingInt` | parser/main.py:72 | `int(text.split()[0])` raises IndexError on an all-whitespace text and is non-negative when it succeeds |
| `DromCard.LeadingIntComplete` | parser/main.py:72 | a digit string after optional whitespace and before whitespace or the end (`"2 владельца"`) is the owner count |
| `DromCard.ParseVin` | parser/main.py:68-79 | at most 2 items give `"-"`, -1, false, false. 3 to 6 items always raise. Otherwise success means at least 7 items with buttons on items 0 and 1. The four fields are item 0's button text, the owner count, `item3 != "Был во владении у юр. лица"` and `item6 == "Ограничений не обнаружено"` |
| `DromCard.ParseCard` | parser/main.py:28-79 | a title not cut into exactly two pieces fails with that unpack error first; a parsed card has at least 4 spec items, a space-free brand, non-negative numbers, mileage 0 unless 5 items, VIN defaults for at most 2 VIN items |
| `DromCard.ParseCardSteps` | parser/main.py:30-79 | a card parses only if every one of its steps does: the title and engine unpackings, items 0, 1 and 3, power, price, year, mileage and VIN block |
| `DromCard.ParseCardTitle` | parser/main.py:30-35 | a parsed card's title is cut once at `", "`; the text after it is all digits and is the year; brand and model are those `SplitName` gives for the text before it |
| `DromCard.ParseCardSpecs` | parser/main.py:36-47 | a parsed card's power, capacity, fuel, drive, price and mileage are exactly the values their own field parsers give on the card's texts |
| `DromCard.ParseCardIgnoresItem2` | parser/main.py:36-47 | spec item 2 is never read: replacing it leaves the outcome of the card unchanged, errors included |
| `DromCard.ParseCardDetails` | parser/main.py:62-79 | a parsed card's five table fields are the table lookups with the `"-"` default, and its four VIN fields are those `ParseVin` gives |
| `DromPage.CollectSpecs` | parser/main.py:54-61 | the map the row loop builds is `SpecTable(rows)` |
| `DromPage.BuildCardInfo` | parser/main.py:28-80 | building one card's record field by field gives exactly `ParseCard(card)`, including which exception is raised first |
| `DromPage.GetCards` | parser/main.py:24-83 | success iff every card parses; then one record per card in card order; otherwise the error is that of the first failing card, all cards before it having parsed |
| `DromCardExamples.PriceExample` | parser/main.py:40 | the price `"1 250 000"` reads as 1250000 |
| `DromCardExamples.PowerExample` | parser/main.py:36 | the power part `"150 л.с.)"` reads as 150 |
| `DromCardExamples.YearWithSuffix` | parser/main.py:41 | the year text `"2019 год"` is rejected by `int()` |
| `DromCardExamples.NameExample` | parser/main.py:32-35 | `"Lada Vesta SW Cross"` gives brand `"Lada"` and model `"Vesta SW Cross"` |

## Left out

- Browser plumbing is not modelled: `DromPage.__init__`, `open`, `wait_many`, `wait_one`, every `find_element(s)` and `.text` fetch, the `execute_script` click and `driver.back()`. These are foreign library calls and I/O; the texts they return are the model's inputs.
- The title and price elements are assumed to exist. In the source, a missing element raises `NoSuchElementException` and aborts the call. The detail table's `th`/`td` and the VIN buttons are modelled as optional, because there the outcome depends on them.
- `wait_many` never returns an empty list: with no matching element it times out and raises. This holds for the card list (line 25) and for the VIN items (line 68). `DromPage.GetCards` returns `Ok([])` for no cards, where the source raises a timeout. The model accepts any list of VIN items and sends an empty one to the default branch.
- The `__main__` pagination loop and `pprint`: driver setup and console output.
- `DromCard.ParseCapacity`: the `float(...)` conversion of the capacity (line 37) is floating point and is not modelled. The capacity stays the text left after `rstrip(" л")`, so a capacity that `float()` would reject is accepted.
- `PyInt.Int`: accepts only non-empty ASCII digit strings. Python's `int()` also accepts surrounding whitespace, a sign, underscores between digits and non-ASCII decimal digits. The model reports those texts as `IntError` where Python would return a number.
- `Results.Exception`: its payloads identify the exception kind and position, not Python's message strings.
- `DromCard.CardInfo`: a record with fixed fields, in place of a dictionary. The insertion order of the dictionary's keys is not modelled.
- Nothing outside `parser/main.py` is modelled. That includes the other script variants of the repository: "new vehicle" and "without mileage in Russia" mileage, electric engines, transmission from spec index 2, description length and CSV output. In this file an electric engine text without `" ("` makes the engine unpacking raise.
