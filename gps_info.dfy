/**
 * The textual side of WaveShareGPSLocator: the reply of the GPS-information command, the
 * no-fix test, the positional parse into timestamp, latitude and longitude, and what one
 * call of get_new_coords returns and stores for a given reply of the serial channel.
 */
module GpsInfo {
  import opened Wrappers
  import opened PyStr

  /** The reply's field separator and the number of splits parse_gps_information asks for. */
  const Separator: char := ','
  const MaxSplit: nat := 5

  /** Six consecutive empty fields: the reply the module sends while it has no fix. */
  const NoFixMarker: string := ",,,,,,"

  /** What send_at hands back: whether the expected token arrived in time, and the text read. */
  datatype Response = Response(ok: bool, msg: string)

  /** The three fields parse_gps_information extracts, as the strings the reply holds. */
  datatype Fix = Fix(datetime: string, lat: string, lng: string)

  /** The ValueError of unpacking `parts[2:5]` into three names when only `got` values are there. */
  datatype ParseError = NotEnoughValues(got: nat)

  /** What get_new_coords returns: the integer pair (-1, -1), or the two parsed strings. */
  datatype Coords = Sentinel | Parsed(lat: string, lng: string)

  /** A value of the last_known_location dictionary: the integer -1 it starts with, or a parsed string. */
  datatype Field = Num(n: int) | Str(s: string)

  datatype Location = Location(datetime: Field, lat: Field, lng: Field)

  /** `{'lat': -1, 'lng': -1, 'datetime': -1}`, the location of a fresh locator. */
  const SentinelLocation: Location := Location(Num(-1), Num(-1), Num(-1))

  function LocationOf(fix: Fix): Location {
    Location(Str(fix.datetime), Str(fix.lat), Str(fix.lng))
  }

  /** parse_gps_information: split at the first five commas and take parts 2, 3 and 4.
      With fewer than five parts the slice holds fewer than three values and unpacking raises.
      The three values read are whole fields: none of them holds a comma. */
  function ParseGpsInformation(information: string): (r: Result<Fix, ParseError>)
    ensures r.Err? ==> r.error.got < 3
    ensures r.Ok? ==> Separator !in r.value.datetime && Separator !in r.value.lat && Separator !in r.value.lng
  {
    var parts := Split(information, Separator, MaxSplit);
    SplitIsShaped(information, Separator, MaxSplit);
    if |parts| >= 5 then Ok(Fix(parts[2], parts[3], parts[4]))
    else Err(NotEnoughValues(if |parts| > 2 then |parts| - 2 else 0))
  }

  /** `',,,,,,' in res_msg`. */
  predicate HasNoFixMarker(msg: string) {
    Contains(msg, NoFixMarker)
  }

  /** What get_new_coords returns for the reply `resp`; `Err` is the exception it lets through. */
  function QueryOutcome(resp: Response): Result<Coords, ParseError> {
    if !resp.ok then Ok(Sentinel)
    else if HasNoFixMarker(resp.msg) then Ok(Sentinel)
    else match ParseGpsInformation(resp.msg)
      case Err(e) => Err(e)
      case Ok(fix) => Ok(Parsed(fix.lat, fix.lng))
  }

  /** The last known location after get_new_coords has handled `resp`, starting from `loc`. */
  function NextLocation(loc: Location, resp: Response): Location {
    if resp.ok && !HasNoFixMarker(resp.msg) && ParseGpsInformation(resp.msg).Ok?
    then LocationOf(ParseGpsInformation(resp.msg).value)
    else loc
  }

  /** The lists of fields a reply with at least four commas splits into. */
  predicate FieldsShaped(parts: seq<string>) {
    5 <= |parts| && SplitShaped(parts, Separator, MaxSplit)
  }

  /** The parse succeeds exactly when the reply has at least four commas; otherwise the
      slice holds one value fewer than the reply has commas (none for a comma-free reply). */
  lemma ParseSucceedsIff(information: string)
    ensures ParseGpsInformation(information).Ok? <==> CountChar(information, Separator) >= 4
    ensures ParseGpsInformation(information).Err? ==>
      ParseGpsInformation(information).error.got ==
        (if CountChar(information, Separator) >= 1 then CountChar(information, Separator) - 1 else 0)
  {
    SplitLength(information, Separator, MaxSplit);
  }

  /** A successful parse reads its three values out of a comma-joined list of at most six
      fields, the first five comma-free, that is exactly the reply. */
  lemma ParseReadsFields(information: string)
    requires ParseGpsInformation(information).Ok?
    ensures exists parts ::
      && FieldsShaped(parts)
      && Join(parts, Separator) == information
      && ParseGpsInformation(information).value == Fix(parts[2], parts[3], parts[4])
  {
    var parts := Split(information, Separator, MaxSplit);
    SplitJoin(information, Separator, MaxSplit);
    SplitIsShaped(information, Separator, MaxSplit);
    assert FieldsShaped(parts) && Join(parts, Separator) == information;
  }

  /** Conversely, joining five comma-free fields and an optional sixth field of anything
      gives a reply that parses to fields 2, 3 and 4. */
  lemma ParseOfFields(parts: seq<string>)
    requires FieldsShaped(parts)
    ensures ParseGpsInformation(Join(parts, Separator)) == Ok(Fix(parts[2], parts[3], parts[4]))
  {
    JoinSplit(parts, Separator, MaxSplit);
  }

  /** A reply holding the no-fix marker has at least six commas. */
  lemma NoFixMarkerCommas(msg: string)
    ensures HasNoFixMarker(msg) ==> CountChar(msg, Separator) >= 6
  {
    if HasNoFixMarker(msg) {
      ContainsCount(msg, NoFixMarker, Separator);
      assert CountChar(NoFixMarker, Separator) == 6;
    }
  }

  const ExampleReply: string := "$GPS,OK,12:00:00,51.005,21.001,*CS"

  /** The example reply splits into its six fields, and holds five commas. */
  lemma ExampleFields()
    ensures Split(ExampleReply, Separator, MaxSplit) == ["$GPS", "OK", "12:00:00", "51.005", "21.001", "*CS"]
    ensures CountChar(ExampleReply, Separator) == 5
  {
    var parts := ["$GPS", "OK", "12:00:00", "51.005", "21.001", "*CS"];
    assert Join(parts, Separator) == ExampleReply;
    assert SplitShaped(parts, Separator, 6);
    JoinSplit(parts, Separator, MaxSplit);
    JoinSplit(parts, Separator, 6);
    SplitLength(ExampleReply, Separator, 6);
  }

  /** `"$GPS,OK,12:00:00,51.005,21.001,*CS"` parses to 12:00:00, 51.005 and 21.001. */
  lemma ParseExample()
    ensures ParseGpsInformation(ExampleReply) == Ok(Fix("12:00:00", "51.005", "21.001"))
  {
    ExampleFields();
  }

  /** get_new_coords returns the sentinel exactly when the channel failed or the reply holds
      the no-fix marker: parsed strings never compare equal to the integer pair. */
  lemma QuerySentinelIff(resp: Response)
    ensures QueryOutcome(resp) == Ok(Sentinel) <==> !resp.ok || HasNoFixMarker(resp.msg)
  {
  }

  /** get_new_coords raises exactly when the reply came, has no no-fix marker, and has
      fewer than four commas. */
  lemma QueryRaisesIff(resp: Response)
    ensures QueryOutcome(resp).Err? <==>
      resp.ok && !HasNoFixMarker(resp.msg) && CountChar(resp.msg, Separator) < 4
  {
    ParseSucceedsIff(resp.msg);
  }

  /** On the parse path the stored location is exactly the parsed triple, the returned pair
      is its latitude and longitude, and it is no longer the sentinel location. */
  lemma QueryStoresWhatItReturns(loc: Location, resp: Response, lat: string, lng: string)
    requires QueryOutcome(resp) == Ok(Parsed(lat, lng))
    ensures resp.ok && !HasNoFixMarker(resp.msg)
    ensures NextLocation(loc, resp) == LocationOf(ParseGpsInformation(resp.msg).value)
    ensures NextLocation(loc, resp).lat == Str(lat) && NextLocation(loc, resp).lng == Str(lng)
    ensures NextLocation(loc, resp) != SentinelLocation
  {
  }

  /** Every other outcome (failure, no fix, exception) leaves the stored location as it was. */
  lemma QueryKeepsLocation(loc: Location, resp: Response)
    requires !(QueryOutcome(resp).Ok? && QueryOutcome(resp).value.Parsed?)
    ensures NextLocation(loc, resp) == loc
  {
  }

  /** The example reply, delivered in time, yields ("51.005", "21.001") and stores all three fields. */
  lemma QueryExample(loc: Location)
    ensures QueryOutcome(Response(true, ExampleReply)) == Ok(Parsed("51.005", "21.001"))
    ensures NextLocation(loc, Response(true, ExampleReply)) ==
      Location(Str("12:00:00"), Str("51.005"), Str("21.001"))
  {
    assert !HasNoFixMarker(ExampleReply) by {
      ExampleFields();
      NoFixMarkerCommas(ExampleReply);
    }
    ParseExample();
  }
}
