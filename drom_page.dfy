/** The loops of `DromPage.get_cards` in parser/main.py: the loop over the
    listing cards that appends one record per card, and the loop over the
    detail-table rows that fills a label-to-value dictionary. The browser
    calls that fetch the texts are replaced by the texts themselves. */
module DromPage {
  import opened Results
  import opened PyInt
  import opened PyStr
  import opened DromCard

  /** Lines 54-61: the row loop. Later rows overwrite earlier ones, and a
      row without its `th` or `td` raises inside the `try` and is skipped. */
  method CollectSpecs(rows: seq<Row>) returns (specs: map<string, string>)
    ensures specs == SpecTable(rows)
  {
    specs := map[];
    for i := 0 to |rows|
      invariant specs == SpecTable(rows[..i])
    {
      assert rows[..i + 1][..i] == rows[..i];
      match rows[i] {
        case Row(Some(key), Some(value)) =>
          specs := specs[key := value];
        case _ =>
      }
    }
    assert rows[..|rows|] == rows;
  }

  /** One pass of the card loop (lines 28-80): the `card_info` dictionary is
      built from the dictionary literal, then given its mileage, its five
      table fields and its four VIN-report fields, in that order. */
  method BuildCardInfo(card: Card) returns (r: Result<CardInfo>)
    ensures r == ParseCard(card)
  {
    var nameYear :- Unpack2(card.title, TitleSep);
    var engine :- SpecField(card.specs, 0);
    var capacityPower :- Unpack2(engine, EngineSep);
    var (brand, model) := SplitName(nameYear.0);
    var power :- ParsePower(capacityPower.1);
    var fuel :- SpecField(card.specs, 1);
    var wd :- SpecField(card.specs, 3);
    var price :- ParsePrice(card.price);
    var year :- Int(nameYear.1);
    var info := CardInfo(
      brand, model, power, ParseCapacity(capacityPower.0), fuel, wd, price, year,
      0, Missing, Missing, Missing, Missing, Missing, Missing, -1, false, false);

    if |card.specs| == 5 {
      var mileage :- Int(Delete(RStrip(card.specs[4], MileageUnits), ' '));
      info := info.(mileage := mileage);
    } else {
      info := info.(mileage := 0);
    }

    var specs := CollectSpecs(card.rows);
    info := info.(
      transmission := Lookup(specs, GearboxLabel),
      body := Lookup(specs, BodyLabel),
      color := Lookup(specs, ColorLabel),
      steeringWheelPos := Lookup(specs, WheelLabel),
      generation := Lookup(specs, GenerationLabel));

    var vin := card.vin;
    if |vin| > 2 {
      var documents :- ButtonText(vin[0]);
      info := info.(documentsCond := documents);
      var owners :- ButtonText(vin[1]);
      var drivers :- LeadingInt(owners);
      info := info.(driversCount := drivers);
      if |vin| <= 3 {
        return Err(IndexError(3, |vin|));
      }
      info := info.(wasDrivenByLegalPerson := vin[3].text != LegalPersonLine);
      if |vin| <= 6 {
        return Err(IndexError(6, |vin|));
      }
      info := info.(isUnderCredit := vin[6].text == NoRestrictionsLine);
    } else {
      info := info.(documentsCond := Missing, driversCount := -1,
                    wasDrivenByLegalPerson := false, isUnderCredit := false);
    }
    return Ok(info);
  }

  /** Lines 24-83: one record per card, in card order, or the first
      exception raised, which aborts the whole call. */
  method GetCards(cards: seq<Card>) returns (r: Result<seq<CardInfo>>)
    ensures r.Ok? <==> forall i :: 0 <= i < |cards| ==> ParseCard(cards[i]).Ok?
    ensures r.Ok? ==> |r.value| == |cards| && forall i :: 0 <= i < |cards| ==> ParseCard(cards[i]) == Ok(r.value[i])
    ensures r.Err? ==> exists k :: 0 <= k < |cards| && ParseCard(cards[k]) == Err(r.error)
                                 && forall i :: 0 <= i < k ==> ParseCard(cards[i]).Ok?
  {
    var cardsInfo: seq<CardInfo> := [];
    for i := 0 to |cards|
      invariant |cardsInfo| == i
      invariant forall j :: 0 <= j < i ==> ParseCard(cards[j]) == Ok(cardsInfo[j])
    {
      var cardInfo := BuildCardInfo(cards[i]);
      if cardInfo.Err? {
        r := Err(cardInfo.error);
        assert ParseCard(cards[i]) == Err(r.error);
        return;
      }
      var appended := cardsInfo + [cardInfo.value];
      assert forall j :: 0 <= j < i ==> appended[j] == cardsInfo[j];
      assert appended[i] == cardInfo.value;
      cardsInfo := appended;
    }
    r := Ok(cardsInfo);
  }
}
