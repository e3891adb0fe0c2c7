/**
 * The `/api/get-location` route: it geocodes an address and reads the city,
 * township and county out of the address components of the first match.
 */
module Location {
  import opened Wrappers
  import opened Text

  datatype AddressComponent = AddressComponent(longName: string, types: seq<string>)

  datatype GeocodeResult = GeocodeResult(components: seq<AddressComponent>)

  /** The geocoding service's JSON reply: its status and its list of matches. */
  datatype GeocodeReply = GeocodeReply(status: string, results: seq<GeocodeResult>)

  /** The call to the geocoding service threw, or it answered with a parsed reply. */
  datatype Geocoded = GeocodeThrew | Geocoded(reply: GeocodeReply)

  datatype LocationRequest = LocationRequest(address: Field)

  datatype Jurisdiction = Jurisdiction(city: string, township: string, county: string)

  /** The route's answer: 200 with the jurisdiction, or an error status with a message. */
  datatype Response = Located(place: Jurisdiction) | Rejected(status: int, error: string)

  const AddressRequired := "Address is required"
  const InvalidAddress := "Invalid address or API error"
  const InternalFailure := "Failed to retrieve location data"

  /** The three fields a component can fill. */
  datatype Slot = City | Township | County

  /** The type tags that make a component fill a slot. */
  predicate Fills(c: AddressComponent, slot: Slot) {
    match slot
    case City => "locality" in c.types
    case County => "administrative_area_level_2" in c.types
    case Township => "sublocality_level_1" in c.types || "administrative_area_level_3" in c.types
  }

  const CountyWord := " County"

  /** `long_name.replace(" County", "")`: the first " County", wherever it stands, is removed. */
  function CountyName(longName: string): string {
    ReplaceFirst(longName, CountyWord, "")
  }

  /** What a component writes into a slot it fills. */
  function Value(c: AddressComponent, slot: Slot): string {
    if slot == County then CountyName(c.longName) else c.longName
  }

  /** The position of the last component that fills `slot`, if any does. */
  function LastFilling(comps: seq<AddressComponent>, slot: Slot): (r: Option<nat>)
    ensures r.None? ==> forall i :: 0 <= i < |comps| ==> !Fills(comps[i], slot)
    ensures r.Some? ==> r.value < |comps| && Fills(comps[r.value], slot)
    ensures r.Some? ==> forall i :: r.value < i < |comps| ==> !Fills(comps[i], slot)
    decreases |comps|
  {
    if comps == [] then None
    else if Fills(comps[|comps| - 1], slot) then Some(|comps| - 1)
    else LastFilling(comps[..|comps| - 1], slot)
  }

  /** The value a slot ends up with. */
  function Pick(comps: seq<AddressComponent>, slot: Slot): string {
    match LastFilling(comps, slot)
    case None => ""
    case Some(i) => Value(comps[i], slot)
  }

  /**
   * A slot is "" when no component fills it, and otherwise holds the value of
   * the last component that does.
   */
  lemma PickIsLastMatch(comps: seq<AddressComponent>, slot: Slot)
    ensures (forall i :: 0 <= i < |comps| ==> !Fills(comps[i], slot)) ==> Pick(comps, slot) == ""
    ensures forall i :: 0 <= i < |comps| && Fills(comps[i], slot)
                        && (forall k :: i < k < |comps| ==> !Fills(comps[k], slot))
                        ==> Pick(comps, slot) == Value(comps[i], slot)
  {
  }

  /** The jurisdiction the scan of `comps` yields. */
  function Extracted(comps: seq<AddressComponent>): Jurisdiction {
    Jurisdiction(Pick(comps, City), Pick(comps, Township), Pick(comps, County))
  }

  /** Taking one more component: a slot it fills takes its value, the others keep theirs. */
  lemma PickStep(comps: seq<AddressComponent>, c: AddressComponent, slot: Slot)
    ensures Pick(comps + [c], slot) == if Fills(c, slot) then Value(c, slot) else Pick(comps, slot)
  {
    assert (comps + [c])[..|comps|] == comps;
  }

  /**
   * The loop over the first result's `address_components`: each component
   * overwrites every field it has a tag for, so the last one wins.
   */
  method ScanComponents(comps: seq<AddressComponent>) returns (city: string, township: string, county: string)
    ensures Jurisdiction(city, township, county) == Extracted(comps)
  {
    city, township, county := "", "", "";
    for i := 0 to |comps|
      invariant Jurisdiction(city, township, county) == Extracted(comps[..i])
    {
      var c := comps[i];
      assert comps[..i + 1] == comps[..i] + [c];
      PickStep(comps[..i], c, City);
      PickStep(comps[..i], c, Township);
      PickStep(comps[..i], c, County);
      if "locality" in c.types {
        city := c.longName;
      }
      if "administrative_area_level_2" in c.types {
        county := CountyName(c.longName);
      }
      if "sublocality_level_1" in c.types || "administrative_area_level_3" in c.types {
        township := c.longName;
      }
    }
    assert comps[..|comps|] == comps;
  }

  /** The reply is usable: status "OK" and at least one match. */
  predicate Usable(reply: GeocodeReply) {
    reply.status == "OK" && |reply.results| > 0
  }

  /**
   * `POST`: `body` is the parsed request (`None` when `req.json()` throws) and
   * `geocode` the geocoding service's reply. Also returns the address the
   * service was asked about, if it was asked at all.
   */
  method Post(body: Option<LocationRequest>, geocode: Geocoded) returns (response: Response, lookup: Option<string>)
    ensures lookup.Some? <==> body.Some? && Truthy(body.value.address)
    ensures lookup.Some? ==> lookup == body.value.address
    ensures body.None? ==> response == Rejected(500, InternalFailure)
    ensures body.Some? && !Truthy(body.value.address) ==> response == Rejected(400, AddressRequired)
    ensures lookup.Some? && geocode.GeocodeThrew? ==> response == Rejected(500, InternalFailure)
    ensures lookup.Some? && geocode.Geocoded? && !Usable(geocode.reply) ==> response == Rejected(400, InvalidAddress)
    ensures lookup.Some? && geocode.Geocoded? && Usable(geocode.reply)
            ==> response == Located(Extracted(geocode.reply.results[0].components))
  {
    if body.None? {
      return Rejected(500, InternalFailure), None;
    }
    var address := body.value.address;
    if !Truthy(address) {
      return Rejected(400, AddressRequired), None;
    }
    lookup := address;
    match geocode
    case GeocodeThrew =>
      response := Rejected(500, InternalFailure);
    case Geocoded(data) =>
      if data.status != "OK" || |data.results| == 0 {
        response := Rejected(400, InvalidAddress);
      } else {
        var city, township, county := ScanComponents(data.results[0].components);
        response := Located(Jurisdiction(city, township, county));
      }
  }

  /** A county name loses its first " County" and nothing else; one without it is unchanged. */
  lemma CountyNameSpec(name: string)
    ensures !Contains(name, CountyWord) ==> CountyName(name) == name
    ensures Contains(name, CountyWord) <==> IndexOf(name, CountyWord).Some?
    ensures Contains(name, CountyWord) ==>
      var k := IndexOf(name, CountyWord).value;
      CountyName(name) == name[..k] + name[k + |CountyWord|..]
  {
    ReplaceFirstSpec(name, CountyWord, "");
    IndexOfSpec(name, CountyWord);
  }

  /** "Santa Clara County" is reported as "Santa Clara". */
  lemma SantaClara()
    ensures CountyName("Santa Clara County") == "Santa Clara"
  {
    var s := "Santa Clara" + CountyWord + "";
    assert s == "Santa Clara County";
    forall i: nat | i < |"Santa Clara"| ensures !OccursAt(s, i, CountyWord) {
      assert s[i + 1] != CountyWord[1] || s[i + 2] != CountyWord[2];
    }
    ReplaceFirstAfter("Santa Clara", "", CountyWord, "");
  }

  /** The tests are independent: one component tagged both ways sets both fields. */
  lemma OneComponentSeveralSlots(c: AddressComponent)
    requires "locality" in c.types && "administrative_area_level_2" in c.types
    requires "administrative_area_level_3" in c.types
    ensures Extracted([c]) == Jurisdiction(c.longName, c.longName, CountyName(c.longName))
  {
  }
}
