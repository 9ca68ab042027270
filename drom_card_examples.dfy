/** Worked examples of the card parser on texts the listing pages show. */
module DromCardExamples {
  import opened Results
  import opened PyInt
  import opened PyStr
  import opened DromCard

  /** The thousands-separated price `1 250 000` reads as 1250000. */
  lemma PriceExample()
    ensures ParsePrice("1 250 000") == Ok(1250000)
  {
    var groups := ["1", "250", "000"];
    PriceGroups();
    ParsePriceGrouped(groups);
    PriceValue();
  }

  lemma PriceGroups()
    ensures Join(" ", ["1", "250", "000"]) == "1 250 000"
    ensures Concat(["1", "250", "000"]) == "1250000"
  {
    assert ["1", "250", "000"][1..] == ["250", "000"];
    assert ["250", "000"][1..] == ["000"];
    assert ["000"][1..] == [];
  }

  lemma PriceValue()
    ensures DecimalValue("1250000") == 1250000
  {
    assert DecimalValue("1") == 1;
    assert "12"[..1] == "1";
    assert DecimalValue("12") == 12;
    assert "125"[..2] == "12";
    assert DecimalValue("125") == 125;
    assert "1250"[..3] == "125";
    assert DecimalValue("1250") == 1250;
    assert "12500"[..4] == "1250";
    assert DecimalValue("12500") == 12500;
    assert "125000"[..5] == "12500";
    assert DecimalValue("125000") == 125000;
    assert "1250000"[..6] == "125000";
  }

  /** The power part `150 л.с.)` of `2.0 л (150 л.с.)` reads as 150. */
  lemma PowerExample()
    ensures ParsePower("150 л.с.)") == Ok(150)
  {
    PowerPieces();
    ParsePowerComplete("", "150", " л.с.)");
  }

  lemma PowerPieces()
    ensures AllIn(" л.с.)", PowerUnits) && IsDigits("150") && DecimalValue("150") == 150
    ensures "" + "150" + " л.с.)" == "150 л.с.)"
  {
    assert "15"[..1] == "1";
    assert "150"[..2] == "15";
  }

  /** `int()` reads the whole text after the comma, so a title whose year
      carries the word `год` fails at the year. */
  lemma YearWithSuffix()
    ensures Int("2019 год").Err?
  {
    assert !IsDigit("2019 год"[4]);
  }

  /** A multi-word name keeps its first word as the brand and the rest as
      the model. */
  lemma NameExample()
    ensures SplitName("Lada Vesta SW Cross") == ("Lada", "Vesta SW Cross")
  {
    var brand, model := "Lada", "Vesta SW Cross";
    assert brand + " " + model == "Lada Vesta SW Cross";
    assert ' ' !in brand;
    SplitNameComplete(brand, model);
  }
}
