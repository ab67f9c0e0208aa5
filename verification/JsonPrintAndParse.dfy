/** The printers and the parser together. */
module JsonPrintAndParse {
  import opened JsonValue
  import opened JsonText
  import opened JsonGrammar
  import opened JsonRoundTrip
  import opened JsonReader
  import opened JsonWriter
  import opened JsonStyledWriter

  /** Parsing what FastWriter writes restores the value exactly when its integers are in range and its doubles
      survive, and a strict reader also wants an array or object. */
  method FastRoundTrip(v: Value, yaml: bool, f: Features, root: Value) returns (ok: bool, parsed: Value)
    requires Shown(v) && Keyed(v)
    ensures ok && parsed == Norm(v) <==> Faithful(v, f.scan) && (f.strictRoot ==> IsRoot(v))
  {
    var writer := new FastWriter();
    if yaml {
      writer.enableYAMLCompatibility();
    }
    var document := writer.write(v);
    FastSpells(v, yaml);
    ParseSpelledIff(document, v, root, f);
    var reader := new Reader(f);
    ok, parsed := reader.parse(document, root);
  }

  /** And so does parsing what StyledWriter writes. */
  method StyledRoundTrip(v: Value, f: Features, root: Value) returns (ok: bool, parsed: Value)
    requires Shown(v) && Keyed(v)
    ensures ok && parsed == Norm(v) <==> Faithful(v, f.scan) && (f.strictRoot ==> IsRoot(v))
  {
    var writer := new StyledWriter();
    var document := writer.write(v);
    ParseSpelledIff(document, v, root, f);
    var reader := new Reader(f);
    ok, parsed := reader.parse(document, root);
  }

  /** The two printers spell out the same lexemes for every value, so both documents are parsed alike. */
  method PrintersAgree(v: Value, f: Features, root: Value) returns (fast: string, styled: string)
    requires Shown(v)
    ensures Spells(fast, Tokens(v)) && Spells(styled, Tokens(v))
    ensures Parse(fast, root, f) == Parse(styled, root, f)
  {
    var fastWriter := new FastWriter();
    fast := fastWriter.write(v);
    FastSpells(v, false);
    var styledWriter := new StyledWriter();
    styled := styledWriter.write(v);
    ParsedAlike(fast, styled, v, root, f);
  }

  /** Parsing and printing again changes nothing more: the second document spells out the first one's lexemes. */
  lemma PrintedAgain(v: Value)
    ensures Tokens(Norm(v)) == Tokens(v)
  {
    NormKeepsTokens(v, []);
  }
}
