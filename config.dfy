/** The CORS origin setting of `Settings` in app/core/config.py. */
module Config {
  import opened Wrappers
  import opened Text

  /** The raw value handed to the `CORS_ORIGINS` validator: a string, or an existing list. */
  datatype RawOrigins = OriginsText(text: string) | OriginsList(items: seq<string>)

  /** The origins used when nothing overrides the setting. */
  const DefaultCorsOrigins: seq<string> := [
    "http://localhost:5173",
    "http://localhost:3000",
    "http://127.0.0.1:5173",
    "http://127.0.0.1:3000"
  ]

  /**
   * `Settings.parse_cors_origins`: a string is split on commas and every piece is
   * stripped; any other value is passed through unchanged.
   */
  function ParseCorsOrigins(v: RawOrigins): (r: seq<string>)
    ensures v.OriginsList? ==> r == v.items
    ensures v.OriginsText? ==> |r| == Count(v.text, ',') + 1
    ensures v.OriginsText? ==> forall k :: 0 <= k < |r| ==> Stripped(r[k]) && ',' !in r[k]
    ensures v.OriginsText? ==> |r| == |Split(v.text, ',')|
    ensures v.OriginsText? ==> forall k :: 0 <= k < |r| ==> r[k] == Strip(Split(v.text, ',')[k])
  {
    match v
    case OriginsText(text) =>
      SplitCount(text, ',');
      SplitStrip(text, ',')
    case OriginsList(items) => items
  }

  /** The value of `settings.CORS_ORIGINS`: the declared default unless an override is given. */
  function CorsOrigins(override: Option<RawOrigins>): (r: seq<string>)
    ensures override.None? ==> r == DefaultCorsOrigins
    ensures override.Some? ==> r == ParseCorsOrigins(override.value)
  {
    match override
    case None => DefaultCorsOrigins
    case Some(v) => ParseCorsOrigins(v)
  }

  /**
   * Origins written out comma-separated, with or without a space after each comma, are
   * read back exactly: parsing inverts joining for origins without commas or
   * surrounding whitespace.
   */
  lemma {:induction false} ParseJoined(origins: seq<string>)
    requires |origins| >= 1
    requires forall k :: 0 <= k < |origins| ==> Stripped(origins[k]) && ',' !in origins[k]
    ensures ParseCorsOrigins(OriginsText(Join(origins, ','))) == origins
  {
    var text := Join(origins, ',');
    SplitJoin(origins, ',');
    var pieces := Split(text, ',');
    assert pieces == origins;
    var r := ParseCorsOrigins(OriginsText(text));
    assert |r| == |origins|;
    forall k | 0 <= k < |r| ensures r[k] == origins[k] {
      assert r[k] == Strip(pieces[k]);
      StripStripped(origins[k]);
    }
  }

  /** The declared defaults survive a round trip through the comma-separated form. */
  lemma DefaultOriginsRoundTrip()
    ensures ParseCorsOrigins(OriginsText(Join(DefaultCorsOrigins, ','))) == DefaultCorsOrigins
  {
    DefaultOriginsClean();
    ParseJoined(DefaultCorsOrigins);
  }

  /** No default origin has surrounding whitespace or a comma. */
  lemma DefaultOriginsClean()
    ensures forall k :: 0 <= k < |DefaultCorsOrigins| ==> Stripped(DefaultCorsOrigins[k]) && ',' !in DefaultCorsOrigins[k]
  {
  }
}
