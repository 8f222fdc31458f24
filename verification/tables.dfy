/** What both scrapers produce: fixed-width byte labels, records split into a
    string part and a numeric part, and the snapshot handed to the store. */
module Tables {
  import opened Results
  import opened Text
  import opened Functions

  type Byte = b: int | 0 <= b < 256
  type Bytes = seq<Byte>

  /** `text.encode(encoding)`; which bytes a text becomes is outside the model. */
  type Encoder = (string, string) -> Bytes

  /** The encoding both scrapers fall back to when none is configured. */
  const DefaultEncoding: string := "UTF-8"

  function EncodingOrDefault(encoding: Option<string>): string {
    if encoding.Some? then encoding.value else DefaultEncoding
  }

  /** Width in bytes of numpy's `S20` string fields. */
  const FieldWidth: nat := 20

  /** numpy's `S20`: a byte string is cut to its first 20 bytes. */
  function FixedWidth(b: Bytes): (r: Bytes)
    ensures |r| <= FieldWidth && r <= b
    ensures |r| == if |b| < FieldWidth then |b| else FieldWidth
  {
    if |b| <= FieldWidth then b else b[..FieldWidth]
  }

  /** Cutting twice cuts no more than cutting once. */
  lemma FixedWidthIdempotent(b: Bytes)
    ensures FixedWidth(FixedWidth(b)) == FixedWidth(b)
  {
  }

  /** One scraped row: the string prefix and the numeric suffix, where `None`
      marks a cell that did not parse as a number. */
  datatype Record = Record(strings: seq<Bytes>, numbers: seq<Option<real>>)

  /** One scrape result, as both scrapers expose it. */
  datatype Snapshot = Snapshot(name: string, columnNames: seq<Bytes>, data: seq<Record>, scrapedAt: int)

  /** A numeric cell: German conversion only when the flag is the text "TRUE",
      then `get_float`; the `ValueError` it raises becomes `None`. */
  function ParseCell(text: string, isGerman: string): (r: Option<real>)
    ensures r.Some? <==> GetFloat(PointDeci(text, isGerman == "TRUE")).Ok?
    ensures r.Some? ==> r.value == GetFloat(PointDeci(text, isGerman == "TRUE")).value
  {
    match GetFloat(PointDeci(text, isGerman == "TRUE"))
    case Ok(v) => Some(v)
    case Err(_) => None
  }

  /** An empty cell is missing, never zero. */
  lemma ParseCellEmpty(isGerman: string)
    ensures ParseCell("", isGerman) == None
  {
    GetFloatRejectsNoDigits("");
    if isGerman == "TRUE" {
      assert PointDeci("", true) == "";
    }
  }

  /** "1.234,56" is 1234.56 when the flag is the text "TRUE". */
  lemma ParseCellGerman()
    ensures ParseCell("1.234,56", "TRUE") == Some(1234.56)
  {
    GermanExample();
  }

  // Steps of the flag examples below: what the filter keeps of "1.234,56",
  // and the value of what it keeps.

  /** The filter of `get_float` on "1.234,56" keeps "1.23456". */
  lemma KeepGermanExample()
    ensures KeepNumberChars("1.234,56") == "1.23456"
  {
    assert "6"[1..] == "";
    assert KeepNumberChars("6") == "6";
    assert "56"[1..] == "6";
    assert KeepNumberChars("56") == "56";
    assert ",56"[1..] == "56";
    assert KeepNumberChars(",56") == "56";
    assert "4,56"[1..] == ",56";
    assert KeepNumberChars("4,56") == "456";
    assert "34,56"[1..] == "4,56";
    assert KeepNumberChars("34,56") == "3456";
    assert "234,56"[1..] == "34,56";
    assert KeepNumberChars("234,56") == "23456";
    assert ".234,56"[1..] == "234,56";
    assert KeepNumberChars(".234,56") == ".23456";
    assert "1.234,56"[1..] == ".234,56";
  }

  lemma FractionExample()
    ensures FractionValue("23456") == 0.23456
  {
    assert "23456"[1..] == "3456";
    assert "3456"[1..] == "456";
    assert "456"[1..] == "56";
    assert "56"[1..] == "6";
    assert "6"[1..] == "";
  }

  /** "1.23456" reads as 1.23456. */
  lemma GetFloatPlainExample()
    ensures GetFloat("1.23456") == Ok(1.23456)
  {
    assert "1.23456" == "1" + "." + "23456";
    assert AllDigits("1") && AllDigits("23456");
    assert DigitsValue("1") == 1 by { assert "1"[..0] == ""; }
    FractionExample();
    GetFloatOfParts("1.23456", "1", "23456", 1.23456);
  }

  /** Any flag other than the exact text "TRUE" (such as "True") skips the
      German conversion: "1.234,56" keeps its point, loses its comma in the
      filter, and reads as 1.23456. */
  lemma ParseCellFlagNotTrue(isGerman: string)
    requires isGerman != "TRUE"
    ensures ParseCell("1.234,56", isGerman) == Some(1.23456)
  {
    KeepGermanExample();
    GetFloatPlainExample();
    KeepNumberCharsIdentity("1.23456");
  }
}
