/** The text-to-record normalisation of one listing card, as
    `DromPage.get_cards` performs it in parser/main.py: the title, the
    compact spec strings, the price, the detail table and the VIN-report
    block, each read from the texts the page shows. */
module DromCard {
  import opened Results
  import opened PyInt
  import opened PyStr

  const TitleSep := ", "
  const EngineSep := " ("
  /** The characters `rstrip(",")` removes from a spec string. */
  const SpecTrailer: set<char> := {','}
  /** The characters `strip(' л.с.)')` removes around the engine power. */
  const PowerUnits: set<char> := {' ', 'л', '.', 'с', ')'}
  /** The characters `rstrip(" л")` removes after the engine capacity. */
  const CapacityUnits: set<char> := {' ', 'л'}
  /** The characters `rstrip(" км")` removes after the mileage. */
  const MileageUnits: set<char> := {' ', 'к', 'м'}
  /** The default of every text field that the page may not show. */
  const Missing := "-"

  const GearboxLabel := "Коробка передач"
  const BodyLabel := "Тип кузова"
  const ColorLabel := "Цвет"
  const WheelLabel := "Руль"
  const GenerationLabel := "Поколение"

  const LegalPersonLine := "Был во владении у юр. лица"
  const NoRestrictionsLine := "Ограничений не обнаружено"

  /** One `tr` of the detail table: the texts of its `th` and `td`, or None
      where `find_element` finds no such cell and raises. */
  datatype Row = Row(heading: Option<string>, cell: Option<string>)

  /** One element of the VIN-report block: its own text and the text of its
      `button`, or None where it has no button. */
  datatype VinItem = VinItem(text: string, button: Option<string>)

  /** The texts the page shows for one card and for its detail view. */
  datatype Card = Card(
    title: string,
    specs: seq<string>,
    price: string,
    rows: seq<Row>,
    vin: seq<VinItem>)

  datatype VinReport = VinReport(
    documentsCond: string,
    driversCount: int,
    wasDrivenByLegalPerson: bool,
    isUnderCredit: bool)

  /** The `card_info` dictionary once every key is filled in. */
  datatype CardInfo = CardInfo(
    brand: string,
    model: string,
    enginePower: int,
    engineCapacity: string,
    fuelType: string,
    wd: string,
    price: int,
    year: int,
    mileage: int,
    transmission: string,
    body: string,
    color: string,
    steeringWheelPos: string,
    generation: string,
    documentsCond: string,
    driversCount: int,
    wasDrivenByLegalPerson: bool,
    isUnderCredit: bool)

  // ---------------------------------------------------------------------
  // Title and compact specs

  /** `a, b = s.split(sep)`: succeeds only when the text splits into exactly
      two pieces, that is when it holds the separator exactly once. */
  function Unpack2(s: string, sep: string): (r: Result<(string, string)>)
    requires sep != []
    ensures r.Ok? ==> s == r.value.0 + sep + r.value.1
    ensures r.Ok? ==> !Contains(r.value.0, sep) && !Contains(r.value.1, sep)
    ensures r.Err? ==> r.error.UnpackError? && r.error.expected == 2 && r.error.got != 2
  {
    var parts := Split(s, sep);
    if |parts| == 2 then Ok((parts[0], parts[1])) else Err(UnpackError(2, |parts|))
  }

  /** A text without the separator is one piece: not enough values to unpack. */
  lemma Unpack2NoSeparator(s: string, sep: string)
    requires sep != [] && !Contains(s, sep)
    ensures Unpack2(s, sep) == Err(UnpackError(2, 1))
  {
    SplitNoSeparator(s, sep);
  }

  /** Conversely, any two separator-free texts joined by a two-character
      separator unpack back into themselves. */
  lemma Unpack2Complete(a: string, sep: string, b: string)
    requires |sep| == 2 && sep[0] != sep[1]
    requires !Contains(a, sep) && !Contains(b, sep)
    ensures Unpack2(a + sep + b, sep) == Ok((a, b))
  {
    NoStraddle(a, sep);
    SplitAtFirst(a, sep, b);
    SplitNoSeparator(b, sep);
  }

  /** `brand, *model = name.split(" ")` followed by `" ".join(model)`. */
  function SplitName(name: string): (r: (string, string))
    ensures ' ' !in r.0
    ensures ' ' in name ==> r.0 + " " + r.1 == name
    ensures ' ' !in name ==> r == (name, "")
  {
    var words := Split(name, " ");
    ContainsChar(words[0], ' ');
    ContainsChar(name, ' ');
    (words[0], Join(" ", words[1..]))
  }

  /** Conversely, the brand is the whole text before the first space and
      the model the whole text after it. */
  lemma SplitNameComplete(brand: string, model: string)
    requires ' ' !in brand
    ensures SplitName(brand + " " + model) == (brand, model)
  {
    var name := brand + " " + model;
    var r := SplitName(name);
    assert name[|brand|] == ' ';
    assert |r.0| <= |brand| ==> r.0 == brand[..|r.0|];
    assert |r.0| >= |brand| ==> brand == r.0[..|brand|];
    assert r.0 == name[..|brand|];
    assert r.1 == name[|brand| + 1..];
  }

  /** `specs[i].rstrip(",")`: the spec string at a position, without its
      trailing commas; an IndexError when the list is too short. */
  function SpecField(specs: seq<string>, i: nat): (r: Result<string>)
    ensures r.Ok? <==> i < |specs|
    ensures r.Ok? ==> r.value <= specs[i] && AllIn(specs[i][|r.value|..], SpecTrailer)
    ensures r.Ok? ==> r.value == [] || r.value[|r.value| - 1] != ','
    ensures r.Err? ==> r.error == IndexError(i, |specs|)
  {
    if i < |specs| then Ok(RStrip(specs[i], SpecTrailer)) else Err(IndexError(i, |specs|))
  }

  /** `int(text.strip(' л.с.)'))`: the horsepower figure between unit
      characters. */
  function ParsePower(text: string): (r: Result<int>)
    ensures r.Ok? ==> exists i, j :: 0 <= i <= j <= |text| && AllIn(text[..i], PowerUnits) && AllIn(text[j..], PowerUnits)
                                     && IsDigits(text[i..j]) && r.value == DecimalValue(text[i..j])
  {
    StripSlice(text, PowerUnits);
    Int(Strip(text, PowerUnits))
  }

  /** Any digit string wrapped in unit characters, such as `150 л.с.)`, reads
      as its own value. */
  lemma ParsePowerComplete(pre: string, digits: string, post: string)
    requires AllIn(pre, PowerUnits) && AllIn(post, PowerUnits) && IsDigits(digits)
    ensures ParsePower(pre + digits + post) == Ok(DecimalValue(digits))
  {
    StripExact(pre, digits, post, PowerUnits);
  }

  /** `float(text.rstrip(" л"))` without the conversion to a float: the
      capacity text with its litre unit removed. */
  function ParseCapacity(text: string): (r: string)
    ensures r <= text && AllIn(text[|r|..], CapacityUnits)
    ensures r == [] || r[|r| - 1] !in CapacityUnits
  {
    RStrip(text, CapacityUnits)
  }

  /** The pieces glued together, in order. */
  function Concat(parts: seq<string>): string {
    if parts == [] then "" else parts[0] + Concat(parts[1..])
  }

  /** Digit groups glued together form a digit string. */
  lemma {:induction false} ConcatDigits(groups: seq<string>)
    requires |groups| > 0 && forall k :: 0 <= k < |groups| ==> IsDigits(groups[k])
    ensures IsDigits(Concat(groups))
  {
    if |groups| == 1 {
      assert Concat(groups) == groups[0] + "";
    } else {
      ConcatDigits(groups[1..]);
      DecimalValueAppend(groups[0], Concat(groups[1..]));
    }
  }

  /** Digit groups joined by single spaces end in a digit. */
  lemma {:induction false} GroupedDigitsEnd(groups: seq<string>)
    requires |groups| > 0 && forall k :: 0 <= k < |groups| ==> IsDigits(groups[k])
    ensures var t := Join(" ", groups); t != [] && IsDigit(t[|t| - 1])
  {
    if |groups| > 1 {
      GroupedDigitsEnd(groups[1..]);
      var t := Join(" ", groups[1..]);
      assert Join(" ", groups) == (groups[0] + " ") + t;
    }
  }

  /** A text of digit groups separated by single spaces loses exactly its
      spaces under `replace(" ", "")`. */
  lemma {:induction false} GroupedDigits(groups: seq<string>)
    requires |groups| > 0 && forall k :: 0 <= k < |groups| ==> IsDigits(groups[k])
    ensures Delete(Join(" ", groups), ' ') == Concat(groups)
  {
    var g := groups[0];
    assert ' ' !in g by {
      assert forall k :: 0 <= k < |g| ==> IsDigit(g[k]);
    }
    DeleteAbsent(g, ' ');
    if |groups| == 1 {
      assert Concat(groups) == g + Concat([]);
      assert g + "" == g;
    } else {
      var rest := groups[1..];
      GroupedDigits(rest);
      var t := Join(" ", rest);
      assert Join(" ", groups) == (g + " ") + t;
      DeleteSpaceAfter(g, t);
      assert Concat(groups) == g + Concat(rest);
    }
  }

  /** Deleting spaces from `g + " " + t` when `g` has none. */
  lemma DeleteSpaceAfter(g: string, t: string)
    requires Delete(g, ' ') == g
    ensures Delete((g + " ") + t, ' ') == g + Delete(t, ' ')
  {
    DeleteConcat(g + " ", t, ' ');
    DeleteConcat(g, " ", ' ');
    assert Delete(" ", ' ') == [];
    assert g + [] == g;
  }

  /** `int(text.replace(" ", ""))`: the price with its thousands separators
      removed. */
  function ParsePrice(text: string): (r: Result<int>)
    ensures r.Ok? ==> r.value >= 0
  {
    Int(Delete(text, ' '))
  }

  /** Spaces anywhere in the price text do not change what it reads as. */
  lemma ParsePriceIgnoresSpace(a: string, b: string)
    ensures ParsePrice(a + " " + b) == ParsePrice(a + b)
  {
    DeleteConcat(a + " ", b, ' ');
    DeleteConcat(a, " ", ' ');
    DeleteConcat(a, b, ' ');
    assert Delete(" ", ' ') == [];
    assert Delete(a, ' ') + [] == Delete(a, ' ');
  }

  /** Thousands-separated digit groups, such as `1 250 000`, read as the
      number their digits spell. */
  lemma ParsePriceGrouped(groups: seq<string>)
    requires |groups| > 0 && forall k :: 0 <= k < |groups| ==> IsDigits(groups[k])
    ensures IsDigits(Concat(groups)) && ParsePrice(Join(" ", groups)) == Ok(DecimalValue(Concat(groups)))
  {
    ConcatDigits(groups);
    GroupedDigits(groups);
  }

  /** Lines 44-47: `int(specs[4].rstrip(" км").replace(" ", ""))` when the
      list has exactly five items, 0 otherwise. */
  function ParseMileage(specs: seq<string>): (r: Result<int>)
    ensures |specs| != 5 ==> r == Ok(0)
    ensures r.Ok? ==> r.value >= 0
  {
    if |specs| == 5 then Int(Delete(RStrip(specs[4], MileageUnits), ' ')) else Ok(0)
  }

  /** A fifth item made of digit groups and a unit, such as `45 000 км`,
      reads as the number the digits spell. */
  lemma ParseMileageGrouped(specs: seq<string>, groups: seq<string>, unit: string)
    requires |groups| > 0 && forall k :: 0 <= k < |groups| ==> IsDigits(groups[k])
    requires AllIn(unit, MileageUnits)
    requires |specs| == 5 && specs[4] == Join(" ", groups) + unit
    ensures IsDigits(Concat(groups)) && ParseMileage(specs) == Ok(DecimalValue(Concat(groups)))
  {
    ConcatDigits(groups);
    GroupedDigits(groups);
    GroupedDigitsEnd(groups);
    RStripExact(Join(" ", groups), unit, MileageUnits);
  }

  // ---------------------------------------------------------------------
  // Detail table

  /** The row gives `key` a value: both of its cells are present. */
  predicate Defines(row: Row, key: string) {
    row.heading == Some(key) && row.cell.Some?
  }

  /** Row `k` is the last row that gives `key` a value. */
  predicate LastDefinition(rows: seq<Row>, key: string, k: int) {
    0 <= k < |rows| && Defines(rows[k], key)
    && forall j :: k < j < |rows| ==> !Defines(rows[j], key)
  }

  /** Lines 54-61: the `ad_car_specs` dictionary after the row loop. A row
      whose `th` or `td` is missing raises inside the `try` and is skipped. */
  function SpecTable(rows: seq<Row>): (table: map<string, string>)
    decreases |rows|
    ensures forall key :: key in table <==> exists k :: 0 <= k < |rows| && Defines(rows[k], key)
  {
    if rows == [] then map[]
    else
      var before := rows[..|rows| - 1];
      assert forall k :: 0 <= k < |before| ==> before[k] == rows[k];
      var table := SpecTable(before);
      match rows[|rows| - 1]
      case Row(Some(key), Some(value)) => table[key := value]
      case _ => table
  }

  /** A repeated key keeps the value of its last complete row. */
  lemma {:induction false} SpecTableLastWins(rows: seq<Row>, key: string, k: int)
    requires LastDefinition(rows, key, k)
    ensures key in SpecTable(rows) && SpecTable(rows)[key] == rows[k].cell.value
    decreases |rows|
  {
    if k < |rows| - 1 {
      var before := rows[..|rows| - 1];
      assert LastDefinition(before, key, k);
      SpecTableLastWins(before, key, k);
    }
  }

  /** `table.get(key, "-")`. */
  function Lookup(table: map<string, string>, key: string): (r: string)
    ensures key in table ==> r == table[key]
    ensures r != Missing ==> key in table
  {
    if key in table then table[key] else Missing
  }

  /** A field read from the table is the value of the last complete row
      with its key, and `"-"` when no complete row has it. */
  lemma LookupField(rows: seq<Row>, key: string)
    ensures (forall k :: 0 <= k < |rows| ==> !Defines(rows[k], key)) ==> Lookup(SpecTable(rows), key) == Missing
    ensures forall k :: LastDefinition(rows, key, k) ==> Lookup(SpecTable(rows), key) == rows[k].cell.value
  {
    forall k | LastDefinition(rows, key, k)
      ensures Lookup(SpecTable(rows), key) == rows[k].cell.value
    {
      SpecTableLastWins(rows, key, k);
    }
  }

  // ---------------------------------------------------------------------
  // VIN report

  /** `item.find_element(By.CSS_SELECTOR, 'button').text`. */
  function ButtonText(item: VinItem): (r: Result<string>)
    ensures r.Ok? <==> item.button.Some?
    ensures r.Ok? ==> r.value == item.button.value
  {
    match item.button
    case Some(text) => Ok(text)
    case None => Err(NoSuchElement("button"))
  }

  /** `int(text.split()[0])`: the owner count in front of its unit word. */
  function LeadingInt(text: string): (r: Result<int>)
    ensures OnlySpace(text) ==> r == Err(IndexError(0, 0))
    ensures r.Ok? ==> r.value >= 0
  {
    var words := SplitWhitespace(text);
    assert OnlySpace(text) ==> words == [] by {
      if OnlySpace(text) { OnlySpaceNoWords(text); }
    }
    if words == [] then Err(IndexError(0, 0)) else Int(words[0])
  }

  /** A digit string after optional whitespace and before a whitespace or
      the end, such as the `2` of `2 владельца`, is the owner count. */
  lemma LeadingIntComplete(ws: string, digits: string, rest: string)
    requires OnlySpace(ws) && IsDigits(digits)
    requires rest == [] || IsSpace(rest[0])
    ensures LeadingInt(ws + digits + rest) == Ok(DecimalValue(digits))
  {
    FirstWord(ws, digits, rest);
  }

  /** Lines 68-79: the VIN-report fields, read by position when the block
      has more than two items and defaulted otherwise. */
  function ParseVin(items: seq<VinItem>): (r: Result<VinReport>)
    ensures |items| <= 2 ==> r == Ok(VinReport(Missing, -1, false, false))
    ensures 2 < |items| < 7 ==> r.Err?
    ensures r.Ok? <==> |items| <= 2 || (|items| >= 7 && items[0].button.Some? && items[1].button.Some?
                                        && LeadingInt(items[1].button.value).Ok?)
    ensures r.Ok? && |items| > 2 ==>
      && items[0].button == Some(r.value.documentsCond)
      && LeadingInt(items[1].button.value) == Ok(r.value.driversCount)
      && (r.value.wasDrivenByLegalPerson <==> items[3].text != LegalPersonLine)
      && (r.value.isUnderCredit <==> items[6].text == NoRestrictionsLine)
    ensures r.Ok? ==> r.value.driversCount >= -1
  {
    if |items| > 2 then
      var documents :- ButtonText(items[0]);
      var owners :- ButtonText(items[1]);
      var drivers :- LeadingInt(owners);
      if |items| <= 3 then Err(IndexError(3, |items|))
      else
        var legal := items[3].text != LegalPersonLine;
        if |items| <= 6 then Err(IndexError(6, |items|))
        else Ok(VinReport(documents, drivers, legal, items[6].text == NoRestrictionsLine))
    else
      Ok(VinReport(Missing, -1, false, false))
  }

  // ---------------------------------------------------------------------
  // The whole card

  /** The steps of a successful card, each of which succeeded. */
  lemma ParseCardSteps(card: Card)
    requires ParseCard(card).Ok?
    ensures Unpack2(card.title, TitleSep).Ok?
    ensures SpecField(card.specs, 0).Ok? && Unpack2(SpecField(card.specs, 0).value, EngineSep).Ok?
    ensures ParsePower(Unpack2(SpecField(card.specs, 0).value, EngineSep).value.1).Ok?
    ensures SpecField(card.specs, 1).Ok? && SpecField(card.specs, 3).Ok?
    ensures ParsePrice(card.price).Ok? && Int(Unpack2(card.title, TitleSep).value.1).Ok?
    ensures ParseMileage(card.specs).Ok? && ParseVin(card.vin).Ok?
  {
    var nameYear := Unpack2(card.title, TitleSep);
    assert nameYear.Ok?;
    var engine := SpecField(card.specs, 0);
    assert engine.Ok?;
    var capacityPower := Unpack2(engine.value, EngineSep);
    assert capacityPower.Ok?;
    assert ParsePower(capacityPower.value.1).Ok?;
    assert SpecField(card.specs, 1).Ok?;
    assert SpecField(card.specs, 3).Ok?;
    assert ParsePrice(card.price).Ok?;
    assert Int(nameYear.value.1).Ok?;
    assert ParseMileage(card.specs).Ok?;
  }

  /** What a successful card says about its title: it is cut once at
      `", "` into a name and a digit-only year text, the year is that text's
      value, and brand and model come from the name. */
  lemma ParseCardTitle(card: Card)
    requires ParseCard(card).Ok?
    ensures Unpack2(card.title, TitleSep).Ok?
    ensures var info := ParseCard(card).value;
      var (name, yearText) := Unpack2(card.title, TitleSep).value;
      && IsDigits(yearText) && info.year == DecimalValue(yearText)
      && (info.brand, info.model) == SplitName(name)
  {
    ParseCardSteps(card);
  }

  /** What a successful card says about its compact specs and price: the
      engine item is cut once at `" ("`, and every field is the value its
      own parser gives. */
  lemma ParseCardSpecs(card: Card)
    requires ParseCard(card).Ok?
    ensures 4 <= |card.specs| && Unpack2(SpecField(card.specs, 0).value, EngineSep).Ok?
    ensures var info := ParseCard(card).value;
      var engine := Unpack2(SpecField(card.specs, 0).value, EngineSep).value;
      && ParsePower(engine.1) == Ok(info.enginePower)
      && info.engineCapacity == ParseCapacity(engine.0)
      && SpecField(card.specs, 1) == Ok(info.fuelType)
      && SpecField(card.specs, 3) == Ok(info.wd)
      && ParsePrice(card.price) == Ok(info.price)
      && ParseMileage(card.specs) == Ok(info.mileage)
  {
    ParseCardSteps(card);
  }

  /** What a successful card says about its detail view: the five table
      fields are looked up with the `"-"` default, and the four VIN fields
      are those `ParseVin` gives. */
  lemma ParseCardDetails(card: Card)
    requires ParseCard(card).Ok?
    ensures var info := ParseCard(card).value;
      var table := SpecTable(card.rows);
      && info.transmission == Lookup(table, GearboxLabel)
      && info.body == Lookup(table, BodyLabel)
      && info.color == Lookup(table, ColorLabel)
      && info.steeringWheelPos == Lookup(table, WheelLabel)
      && info.generation == Lookup(table, GenerationLabel)
      && ParseVin(card.vin) == Ok(VinReport(info.documentsCond, info.driversCount,
                                            info.wasDrivenByLegalPerson, info.isUnderCredit))
  {
    ParseCardSteps(card);
  }
  /** Spec item 2, the transmission of the compact specs, is never read:
      replacing it leaves the outcome of the card unchanged, errors included. */
  lemma ParseCardIgnoresItem2(card: Card, x: string)
    requires |card.specs| > 2
    ensures ParseCard(card.(specs := card.specs[2 := x])) == ParseCard(card)
  {
    var other := card.(specs := card.specs[2 := x]);
    assert SpecField(other.specs, 0) == SpecField(card.specs, 0);
    assert SpecField(other.specs, 1) == SpecField(card.specs, 1);
    assert SpecField(other.specs, 3) == SpecField(card.specs, 3);
    assert ParseMileage(other.specs) == ParseMileage(card.specs);
    var nameYear := Unpack2(card.title, TitleSep);
    var engine := SpecField(card.specs, 0);
    if nameYear.Err? || engine.Err? {
      return;
    }
    var capacityPower := Unpack2(engine.value, EngineSep);
    if capacityPower.Err? || ParsePower(capacityPower.value.1).Err? {
      return;
    }
    if SpecField(card.specs, 1).Err? || SpecField(card.specs, 3).Err? || ParsePrice(card.price).Err? {
      return;
    }
    if Int(nameYear.value.1).Err? || ParseMileage(card.specs).Err? || ParseVin(card.vin).Err? {
      return;
    }
  }


  /** One iteration of the card loop (lines 28-82), with the steps in the
      order the source evaluates them, so that the first exception raised
      is the one reported. */
  function ParseCard(card: Card): (r: Result<CardInfo>)
    ensures |Split(card.title, TitleSep)| != 2 ==> r == Err(UnpackError(2, |Split(card.title, TitleSep)|))
    ensures r.Ok? ==> 4 <= |card.specs|
    ensures r.Ok? ==> ' ' !in r.value.brand
    ensures r.Ok? ==> r.value.year >= 0 && r.value.price >= 0 && r.value.enginePower >= 0
    ensures r.Ok? ==> r.value.mileage >= 0 && (|card.specs| != 5 ==> r.value.mileage == 0)
    ensures r.Ok? ==> r.value.driversCount >= -1
    ensures r.Ok? && |card.vin| <= 2 ==>
      r.value.documentsCond == Missing && r.value.driversCount == -1
      && !r.value.wasDrivenByLegalPerson && !r.value.isUnderCredit
  {
    var nameYear :- Unpack2(card.title, TitleSep);
    var engine :- SpecField(card.specs, 0);
    var capacityPower :- Unpack2(engine, EngineSep);
    var (brand, model) := SplitName(nameYear.0);
    var power :- ParsePower(capacityPower.1);
    var fuel :- SpecField(card.specs, 1);
    var wd :- SpecField(card.specs, 3);
    var price :- ParsePrice(card.price);
    var year :- Int(nameYear.1);
    var mileage :- ParseMileage(card.specs);
    var table := SpecTable(card.rows);
    var vin :- ParseVin(card.vin);
    Ok(CardInfo(
      brand, model, power, ParseCapacity(capacityPower.0), fuel, wd, price, year, mileage,
      Lookup(table, GearboxLabel), Lookup(table, BodyLabel), Lookup(table, ColorLabel),
      Lookup(table, WheelLabel), Lookup(table, GenerationLabel),
      vin.documentsCond, vin.driversCount, vin.wasDrivenByLegalPerson, vin.isUnderCredit))
  }
}
