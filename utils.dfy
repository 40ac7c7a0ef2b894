/** monitoring/utils.py: the Sport and TriggerInterval enumerations, the
    1-January timestamp and the request-kind fallback of parse_payload. */
module Utils {
  import opened Wrappers
  import Text
  import Seqs

  /** The sports, in declaration order; Value() is the enum member's value. */
  datatype Sport = Running | Cycling | Swimming | Hiking | CrossCountrySkiing | Gym | GymUb | GymLb | GymC {
    function Value(): string {
      match this
      case Running => "running"
      case Cycling => "cycling"
      case Swimming => "swimming"
      case Hiking => "hiking"
      case CrossCountrySkiing => "cross-country skiing"
      case Gym => "gym"
      case GymUb => "gym: ub"
      case GymLb => "gym: lb"
      case GymC => "gym: c"
    }
  }

  /** Iterating over the Sport enum yields its members in declaration order. */
  const AllSports: seq<Sport> := [Running, Cycling, Swimming, Hiking, CrossCountrySkiing, Gym, GymUb, GymLb, GymC]

  lemma AllSportsListsEachSportOnce()
    ensures forall s: Sport :: s in AllSports
    ensures Seqs.NoDuplicates(AllSports)
  {
    forall s: Sport ensures s in AllSports {
      assert s.Running? || s.Cycling? || s.Swimming? || s.Hiking? || s.CrossCountrySkiing?
          || s.Gym? || s.GymUb? || s.GymLb? || s.GymC?;
    }
  }

  /** Distinct members have distinct values, so a value names one sport. */
  lemma SportValuesDistinct(a: Sport, b: Sport)
    ensures a.Value() == b.Value() ==> a == b
  {
    if a.Value() == b.Value() {
      var va, vb := a.Value(), b.Value();
      assert |va| == |vb|;
      assert va[0] == vb[0];
      assert va[|va| - 1] == vb[|vb| - 1];
    }
  }

  /** The gym sub-disciplines all begin with the value of `gym`, which the prefix
      test of the summary filter relies on. */
  lemma GymVariantsStartWithGym(s: Sport)
    requires s == Gym || s == GymUb || s == GymLb || s == GymC
    ensures Text.StartsWith(s.Value(), Gym.Value())
  {
  }

  datatype TriggerInterval = Daily | Weekly {
    function Value(): string {
      match this
      case Daily => "daily"
      case Weekly => "weekly"
    }
  }

  /** Python's "%02d" / "%04d" formatting: `n` with zeros in front, `width` digits in all. */
  function Padded(n: nat, width: nat): (r: string)
    ensures |r| == width
    ensures Text.AllDigits(r)
  {
    if width == 0 then [] else Padded(n / 10, width - 1) + [Text.DigitChar(n % 10)]
  }

  /** Four padded digits read back as the number they were written from. */
  lemma Padded4Value(n: nat)
    requires n < 10000
    ensures Text.DigitsValue(Padded(n, 4)) == n
  {
    var a, b, c, d := n / 1000, (n / 100) % 10, (n / 10) % 10, n % 10;
    assert n / 10 / 10 == n / 100 && n / 100 / 10 == n / 1000 && n / 1000 / 10 == 0;
    var p := Padded(n, 4);
    assert Padded(n / 1000, 1) == [Text.DigitChar(a)];
    assert Padded(n / 100, 2) == [Text.DigitChar(a), Text.DigitChar(b)];
    assert Padded(n / 10, 3) == [Text.DigitChar(a), Text.DigitChar(b), Text.DigitChar(c)];
    assert p == [Text.DigitChar(a), Text.DigitChar(b), Text.DigitChar(c), Text.DigitChar(d)];
    assert p[..1] == [Text.DigitChar(a)] && p[..2] == p[..1] + [Text.DigitChar(b)];
    assert p[..3] == p[..2] + [Text.DigitChar(c)];
    assert Text.DigitsValue(p[..1]) == a by { assert p[..1][..0] == []; }
    assert Text.DigitsValue(p[..2]) == 10 * a + b by { assert p[..2][..1] == p[..1]; }
    assert Text.DigitsValue(p[..3]) == 100 * a + 10 * b + c by { assert p[..3][..2] == p[..2]; }
    assert p[..3] == p[..|p| - 1];
  }

  /** `datetime.datetime(year, 1, 1).isoformat() + "Z"`; None where Python raises
      ValueError for a year outside 1..9999. */
  function FirstOfJanTimestamp(year: int): (r: Option<string>)
    ensures r.Some? <==> 1 <= year <= 9999
    ensures r.Some? ==> |r.value| == 20 && r.value[4..] == "-01-01T00:00:00Z"
    ensures r.Some? ==> Text.AllDigits(r.value[..4]) && Text.DigitsValue(r.value[..4]) == year
  {
    if 1 <= year <= 9999 then
      var s := Padded(year, 4) + "-01-01T00:00:00" + "Z";
      assert s[..4] == Padded(year, 4);
      Padded4Value(year);
      Some(s)
    else None
  }

  /** A decoded JSON value. */
  datatype Json = JNull | JBool(b: bool) | JNumber(n: real) | JString(s: string)
                | JArray(items: seq<Json>) | JObject(fields: map<string, Json>)

  /** Python truthiness of a decoded JSON value. */
  predicate Truthy(j: Json) {
    match j
    case JNull => false
    case JBool(b) => b
    case JNumber(n) => n != 0.0
    case JString(s) => s != ""
    case JArray(items) => items != []
    case JObject(fields) => fields != map[]
  }

  /** What parse_payload returns: the request kind, or the tuple ("JSON Error", 400). */
  datatype Payload = Kind(kind: Json) | ErrorTuple(message: string, status: int)

  /** parse_payload after base64 decoding: `decoded` is None when json.loads failed.
      `request_json.get` exists only on JSON objects: any other JSON value raises
      AttributeError, the Err case. */
  function ParsePayload(decoded: Option<Json>): (r: Result<Payload, string>)
    ensures decoded.None? ==> r == Ok(ErrorTuple("JSON Error", 400))
    ensures decoded.Some? ==> (r.Ok? <==> decoded.value.JObject?)
    ensures decoded.Some? && decoded.value.JObject? ==>
      var fields := decoded.value.fields;
      r.value.Kind? &&
      (if "kind" in fields && Truthy(fields["kind"]) then r.value.kind == fields["kind"]
       else r.value.kind == JString("default"))
    ensures r.Ok? && r.value.Kind? ==> Truthy(r.value.kind)
  {
    match decoded
    case None => Ok(ErrorTuple("JSON Error", 400))
    case Some(JObject(fields)) =>
      Ok(Kind(if "kind" in fields && Truthy(fields["kind"]) then fields["kind"] else JString("default")))
    case Some(_) => Err("AttributeError")
  }
}
