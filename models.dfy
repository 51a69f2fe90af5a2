/** The record schema of src/extractor/models.py and the "before" validators that coerce
    loosely typed values into it. The input of a record construction is the value that
    `json.loads` produced (a `Json`); Python's `float(str)` is the parameter `floatOf`,
    any partial function from strings to floats. */
module Models {
  import opened Wrappers

  /** A Python float: a finite value (IEEE rounding is not modelled), an infinity, or NaN. */
  datatype PyFloat = Finite(x: real) | PosInf | NegInf | NaN

  /** A value as `json.loads` returns it. JSON integers and floats are both `JNumber`. */
  datatype Json =
    | JNull
    | JBool(b: bool)
    | JNumber(n: PyFloat)
    | JString(s: string)
    | JArray(items: seq<Json>)
    | JObject(fields: map<string, Json>)

  /** `float(s)` on a string: `None` where it raises ValueError. */
  type FloatParser = string -> Option<PyFloat>

  datatype RewardCategory = RewardCategory(
    dining: PyFloat, travel: PyFloat, fuel: PyFloat, grocery: PyFloat,
    shopping: PyFloat, utilities: PyFloat, entertainment: PyFloat, international: PyFloat)

  datatype Benefit = Benefit(icon: string, title: string, description: string)

  datatype Milestone = Milestone(spend: int, benefit: string, value: int)

  datatype BestMerchant = BestMerchant(name: string, logo: string, multiplier: string)

  datatype CreditCard = CreditCard(
    id: string, name: string, bank: string, network: string,
    annualFee: int, joiningFee: int,
    rewardRate: PyFloat, rewards: RewardCategory,
    color: string, accentColor: string, gradient: string,
    benefits: seq<Benefit>, milestones: seq<Milestone>, bestMerchants: seq<BestMerchant>,
    rewardPointValue: PyFloat, rewardPointsName: Option<string>, mostlyUsedFor: seq<string>,
    cardNumber: Option<string>, expiryDate: Option<string>, cardholderName: Option<string>)

  /** Why `CreditCard(**data)` fails: `data` is not a dict (a TypeError), or pydantic rejects
      the listed top-level fields, in declaration order. */
  datatype ValidationError = NotAnObject | Invalid(fields: seq<string>)

  const Zero := Finite(0.0)
  const DefaultRewardPointValue := Finite(0.25)

  // ---------------------------------------------------------------------------
  // Field validators

  /** `v is None or v == "" or v == "N/A"`. */
  predicate IsPlaceholder(v: Json) {
    v == JNull || v == JString("") || v == JString("N/A")
  }

  /** `float(v)`: `None` where it raises ValueError or TypeError (lists, dicts, None). */
  function ToFloat(v: Json, floatOf: FloatParser): (f: Option<PyFloat>)
    ensures v.JNull? || v.JArray? || v.JObject? ==> f.None?
    ensures v.JNumber? ==> f == Some(v.n)
    ensures v.JString? ==> f == floatOf(v.s)
    ensures v.JBool? ==> f == Some(if v.b then Finite(1.0) else Finite(0.0))
  {
    match v
    case JNumber(n) => Some(n)
    case JBool(b) => Some(if b then Finite(1.0) else Zero)
    case JString(s) => floatOf(s)
    case _ => None
  }

  /** `int(x)` on a finite float: truncation toward zero. */
  function Trunc(x: real): (n: int)
    ensures 0.0 <= x ==> n as real <= x < n as real + 1.0
    ensures x < 0.0 ==> n as real - 1.0 < x <= n as real
  {
    if x >= 0.0 then x.Floor else -((-x).Floor)
  }

  /** The one exception `int(float(v))` raises that the validators do not catch. */
  datatype Uncaught = OverflowError

  /** `coerce_to_int` / `coerce_fees_to_int` as written: `int()` of NaN raises ValueError
      (caught, giving 0), but `int()` of an infinity raises OverflowError, which escapes
      the `except (ValueError, TypeError)` and aborts the whole record construction. */
  function CoerceIntAsWritten(v: Json, floatOf: FloatParser): (r: Result<int, Uncaught>)
    ensures r.Failure? <==> !IsPlaceholder(v) && ToFloat(v, floatOf) in {Some(PosInf), Some(NegInf)}
    ensures r.Success? && r.value != 0 ==>
      ToFloat(v, floatOf).Some? && ToFloat(v, floatOf).value.Finite? && r.value == Trunc(ToFloat(v, floatOf).value.x)
  {
    if IsPlaceholder(v) then Success(0)
    else match ToFloat(v, floatOf)
      case None => Success(0)
      case Some(Finite(x)) => Success(Trunc(x))
      case Some(NaN) => Success(0)
      case Some(_) => Failure(OverflowError)
  }

  /** The integer coercion as evidently intended: every value that cannot become an
      integer gives 0; everything else is handled as the code does. */
  function CoerceInt(v: Json, floatOf: FloatParser): (n: int)
    ensures IsPlaceholder(v) ==> n == 0
    ensures CoerceIntAsWritten(v, floatOf).Success? ==> n == CoerceIntAsWritten(v, floatOf).value
  {
    if IsPlaceholder(v) then 0
    else match ToFloat(v, floatOf)
      case Some(Finite(x)) => Trunc(x)
      case _ => 0
  }

  /** `coerce_to_float` (RewardCategory and CreditCard): placeholders and values `float()`
      rejects give 0.0; infinities and NaN pass through. */
  function CoerceFloat(v: Json, floatOf: FloatParser): (f: PyFloat)
    ensures f == Zero || ToFloat(v, floatOf) == Some(f)
    ensures IsPlaceholder(v) || ToFloat(v, floatOf).None? ==> f == Zero
    ensures !IsPlaceholder(v) && ToFloat(v, floatOf).Some? ==> f == ToFloat(v, floatOf).value
  {
    if IsPlaceholder(v) then Zero
    else match ToFloat(v, floatOf)
      case Some(f) => f
      case None => Zero
  }

  // ---------------------------------------------------------------------------
  // Field rules: a missing key takes the declared default (validators do not run on
  // defaults); a present key is validated. `None` marks a rejected field.

  function IntField(m: map<string, Json>, key: string, floatOf: FloatParser): (n: int) {
    if key in m then CoerceInt(m[key], floatOf) else 0
  }

  function FloatField(m: map<string, Json>, key: string, default: PyFloat, floatOf: FloatParser): (f: PyFloat) {
    if key in m then CoerceFloat(m[key], floatOf) else default
  }

  /** A `str` field declared with `Field(...)`: required, and only a string is accepted. */
  function RequiredStr(m: map<string, Json>, key: string): (r: Option<string>) {
    if key in m && m[key].JString? then Some(m[key].s) else None
  }

  /** A `str` field with a default; `None` is not a string and is rejected. */
  function StrOr(m: map<string, Json>, key: string, default: string): (r: Option<string>) {
    if key !in m then Some(default)
    else if m[key].JString? then Some(m[key].s)
    else None
  }

  /** An `Optional[str]` field defaulting to `None`. */
  function OptionalStr(m: map<string, Json>, key: string): (r: Option<Option<string>>) {
    if key !in m || m[key] == JNull then Some(None)
    else if m[key].JString? then Some(Some(m[key].s))
    else None
  }

  /** A list is valid when every element is; the result keeps the order. */
  function AllOf<T>(xs: seq<Json>, elem: Json -> Option<T>): (r: Option<seq<T>>)
    ensures r.Some? <==> forall i :: 0 <= i < |xs| ==> elem(xs[i]).Some?
    ensures r.Some? ==> |r.value| == |xs| && forall i :: 0 <= i < |xs| ==> elem(xs[i]) == Some(r.value[i])
  {
    if xs == [] then Some([])
    else match (elem(xs[0]), AllOf(xs[1..], elem))
      case (Some(x), Some(rest)) => Some([x] + rest)
      case _ => None
  }

  /** A `List[...]` field with `default_factory=list`. */
  function ListField<T>(m: map<string, Json>, key: string, elem: Json -> Option<T>): (r: Option<seq<T>>) {
    if key !in m then Some([])
    else if m[key].JArray? then AllOf(m[key].items, elem)
    else None
  }

  function AsString(v: Json): (r: Option<string>) {
    if v.JString? then Some(v.s) else None
  }

  // ---------------------------------------------------------------------------
  // The nested models

  /** `RewardCategory(**v)`: each category coerced on its own, 0 when absent. */
  function ParseRewards(v: Json, floatOf: FloatParser): (r: Option<RewardCategory>)
    ensures r.Some? <==> v.JObject?
    ensures r.Some? ==> forall key :: key in Categories ==> Category(r.value, key) == FloatField(v.fields, key, Zero, floatOf)
  {
    if !v.JObject? then None
    else
      var m := v.fields;
      Some(RewardCategory(
        FloatField(m, "dining", Zero, floatOf), FloatField(m, "travel", Zero, floatOf),
        FloatField(m, "fuel", Zero, floatOf), FloatField(m, "grocery", Zero, floatOf),
        FloatField(m, "shopping", Zero, floatOf), FloatField(m, "utilities", Zero, floatOf),
        FloatField(m, "entertainment", Zero, floatOf), FloatField(m, "international", Zero, floatOf)))
  }

  /** `Benefit(**v)`: icon, title and description are required strings. */
  function ParseBenefit(v: Json): (r: Option<Benefit>)
    ensures r.Some? <==>
      v.JObject? && RequiredStr(v.fields, "icon").Some? && RequiredStr(v.fields, "title").Some?
      && RequiredStr(v.fields, "description").Some?
    ensures r.Some? ==>
      r.value == Benefit(v.fields["icon"].s, v.fields["title"].s, v.fields["description"].s)
  {
    if !v.JObject? then None
    else
      var m := v.fields;
      match (RequiredStr(m, "icon"), RequiredStr(m, "title"), RequiredStr(m, "description"))
      case (Some(i), Some(t), Some(d)) => Some(Benefit(i, t, d))
      case _ => None
  }

  /** `Milestone(**v)`: spend and value coerced to int, benefit a string defaulting to "". */
  function ParseMilestone(v: Json, floatOf: FloatParser): (r: Option<Milestone>)
    ensures r.Some? <==> v.JObject? && ("benefit" !in v.fields || v.fields["benefit"].JString?)
    ensures r.Some? ==>
      r.value.spend == IntField(v.fields, "spend", floatOf) && r.value.value == IntField(v.fields, "value", floatOf)
  {
    if !v.JObject? then None
    else
      var m := v.fields;
      match StrOr(m, "benefit", "")
      case Some(b) => Some(Milestone(IntField(m, "spend", floatOf), b, IntField(m, "value", floatOf)))
      case None => None
  }

  /** `BestMerchant(**v)`: name and multiplier required, logo defaulting to "". */
  function ParseMerchant(v: Json): (r: Option<BestMerchant>)
    ensures r.Some? <==>
      v.JObject? && RequiredStr(v.fields, "name").Some? && RequiredStr(v.fields, "multiplier").Some?
      && ("logo" !in v.fields || v.fields["logo"].JString?)
    ensures r.Some? ==> r.value.name == v.fields["name"].s && r.value.multiplier == v.fields["multiplier"].s
    ensures r.Some? ==> r.value.logo == if "logo" in v.fields then v.fields["logo"].s else ""
  {
    if !v.JObject? then None
    else
      var m := v.fields;
      match (RequiredStr(m, "name"), StrOr(m, "logo", ""), RequiredStr(m, "multiplier"))
      case (Some(n), Some(l), Some(x)) => Some(BestMerchant(n, l, x))
      case _ => None
  }

  function RewardsField(m: map<string, Json>, floatOf: FloatParser): (r: Option<RewardCategory>) {
    if "rewards" in m then ParseRewards(m["rewards"], floatOf) else Some(NoRewards())
  }

  function NoRewards(): (r: RewardCategory) {
    RewardCategory(Zero, Zero, Zero, Zero, Zero, Zero, Zero, Zero)
  }

  /** `[key]` when the field was rejected. */
  function Rejected<T>(key: string, o: Option<T>): (r: seq<string>) {
    if o.None? then [key] else []
  }

  /** Pydantic accepts every non-numeric field of the card; the numeric ones are always accepted. */
  predicate Accepts(m: map<string, Json>, floatOf: FloatParser) {
    AcceptsStrings(m) && AcceptsNested(m, floatOf)
  }

  /** The string and optional-string fields. */
  predicate AcceptsStrings(m: map<string, Json>) {
    && RequiredStr(m, "id").Some? && RequiredStr(m, "name").Some? && RequiredStr(m, "bank").Some?
    && StrOr(m, "network", "Unknown").Some?
    && StrOr(m, "color", "#1a1a1a").Some? && StrOr(m, "accentColor", "#00ff00").Some?
    && StrOr(m, "gradient", "").Some?
    && OptionalStr(m, "rewardPointsName").Some?
    && OptionalStr(m, "cardNumber").Some? && OptionalStr(m, "expiryDate").Some?
    && OptionalStr(m, "cardholderName").Some?
  }

  /** The nested record and the list fields. */
  predicate AcceptsNested(m: map<string, Json>, floatOf: FloatParser) {
    && RewardsField(m, floatOf).Some?
    && ListField(m, "benefits", ParseBenefit).Some?
    && ListField(m, "milestones", (v: Json) => ParseMilestone(v, floatOf)).Some?
    && ListField(m, "bestMerchants", ParseMerchant).Some?
    && ListField(m, "mostlyUsedFor", AsString).Some?
  }

  /** The rejected fields, in declaration order. */
  function RejectedFields(m: map<string, Json>, floatOf: FloatParser): (fields: seq<string>) {
    Rejected("id", RequiredStr(m, "id")) + Rejected("name", RequiredStr(m, "name"))
    + Rejected("bank", RequiredStr(m, "bank")) + Rejected("network", StrOr(m, "network", "Unknown"))
    + Rejected("rewards", RewardsField(m, floatOf))
    + Rejected("color", StrOr(m, "color", "#1a1a1a")) + Rejected("accentColor", StrOr(m, "accentColor", "#00ff00"))
    + Rejected("gradient", StrOr(m, "gradient", ""))
    + Rejected("benefits", ListField(m, "benefits", ParseBenefit))
    + Rejected("milestones", ListField(m, "milestones", (v: Json) => ParseMilestone(v, floatOf)))
    + Rejected("bestMerchants", ListField(m, "bestMerchants", ParseMerchant))
    + Rejected("rewardPointsName", OptionalStr(m, "rewardPointsName"))
    + Rejected("mostlyUsedFor", ListField(m, "mostlyUsedFor", AsString))
    + Rejected("cardNumber", OptionalStr(m, "cardNumber")) + Rejected("expiryDate", OptionalStr(m, "expiryDate"))
    + Rejected("cardholderName", OptionalStr(m, "cardholderName"))
  }

  /** `CreditCard(**data)` on the value `json.loads` produced. */
  function ParseCard(data: Json, floatOf: FloatParser): (r: Result<CreditCard, ValidationError>)
    ensures !data.JObject? ==> r == Failure(NotAnObject)
    ensures r.Success? <==> data.JObject? && RejectedFields(data.fields, floatOf) == []
    ensures data.JObject? && r.Failure? ==> r.error == Invalid(RejectedFields(data.fields, floatOf))
    ensures r.Success? ==>
      r.value.id == data.fields["id"].s && r.value.name == data.fields["name"].s && r.value.bank == data.fields["bank"].s
  {
    if !data.JObject? then Failure(NotAnObject)
    else
      AcceptsIffNothingRejected(data.fields, floatOf);
      if !Accepts(data.fields, floatOf) then Failure(Invalid(RejectedFields(data.fields, floatOf)))
      else
        var m := data.fields;
        Success(CreditCard(
          RequiredStr(m, "id").value, RequiredStr(m, "name").value, RequiredStr(m, "bank").value,
          StrOr(m, "network", "Unknown").value,
          IntField(m, "annualFee", floatOf), IntField(m, "joiningFee", floatOf),
          FloatField(m, "rewardRate", Zero, floatOf), RewardsField(m, floatOf).value,
          StrOr(m, "color", "#1a1a1a").value, StrOr(m, "accentColor", "#00ff00").value,
          StrOr(m, "gradient", "").value,
          ListField(m, "benefits", ParseBenefit).value,
          ListField(m, "milestones", (v: Json) => ParseMilestone(v, floatOf)).value,
          ListField(m, "bestMerchants", ParseMerchant).value,
          FloatField(m, "rewardPointValue", DefaultRewardPointValue, floatOf),
          OptionalStr(m, "rewardPointsName").value,
          ListField(m, "mostlyUsedFor", AsString).value,
          OptionalStr(m, "cardNumber").value, OptionalStr(m, "expiryDate").value,
          OptionalStr(m, "cardholderName").value))
  }

  /** The card is accepted exactly when no field is reported as rejected. */
  lemma AcceptsIffNothingRejected(m: map<string, Json>, floatOf: FloatParser)
    ensures Accepts(m, floatOf) <==> RejectedFields(m, floatOf) == []
  {
  }

  // ---------------------------------------------------------------------------
  // Properties of the validators

  /** A numeric string or number gives its integer part, truncated toward zero, under the
      integer rule and its own value under the float rule. */
  lemma CoerceIntOfNumber(s: string, x: real, floatOf: FloatParser)
    requires s != "" && s != "N/A" && floatOf(s) == Some(Finite(x))
    ensures CoerceInt(JString(s), floatOf) == Trunc(x)
    ensures CoerceInt(JNumber(Finite(x)), floatOf) == Trunc(x)
    ensures CoerceFloat(JString(s), floatOf) == Finite(x)
    ensures CoerceFloat(JNumber(Finite(x)), floatOf) == Finite(x)
  {
  }

  /** "1000.0" gives 1000, and -2.5 is truncated to -2, not floored to -3. */
  lemma CoerceIntExamples(floatOf: FloatParser)
    requires floatOf("1000.0") == Some(Finite(1000.0))
    ensures CoerceInt(JString("1000.0"), floatOf) == 1000
    ensures CoerceInt(JNumber(Finite(-2.5)), floatOf) == -2
  {
    assert JString("1000.0") != JString("") && JString("1000.0") != JString("N/A");
  }

  /** Whatever `float()` rejects, and every non-finite float, coerces to zero: the integer
      coercion never fails. The float coercion maps the same rejected values to 0.0. */
  lemma CoerceRejectedIsZero(v: Json, floatOf: FloatParser)
    requires ToFloat(v, floatOf).None? || ToFloat(v, floatOf) in {Some(PosInf), Some(NegInf), Some(NaN)}
    ensures CoerceInt(v, floatOf) == 0
    ensures ToFloat(v, floatOf).None? ==> CoerceFloat(v, floatOf) == Zero
  {
  }

  /** Placeholders give the zero value of both numeric kinds. */
  lemma PlaceholdersAreZero(floatOf: FloatParser)
    ensures forall v | IsPlaceholder(v) :: CoerceInt(v, floatOf) == 0 && CoerceFloat(v, floatOf) == Zero
  {
  }

  /** The uncaught exception: an infinite float, which `json.loads` produces for the
      literal `Infinity` and `float()` for "inf" or "1e999", makes the validator raise. */
  lemma IntCoercionOverflows(floatOf: FloatParser)
    ensures CoerceIntAsWritten(JNumber(PosInf), floatOf) == Failure(OverflowError)
    ensures CoerceIntAsWritten(JNumber(NegInf), floatOf) == Failure(OverflowError)
    ensures floatOf("inf") == Some(PosInf) ==> CoerceIntAsWritten(JString("inf"), floatOf) == Failure(OverflowError)
  {
    assert JString("inf") != JString("") && JString("inf") != JString("N/A");
  }

  /** Where the corrected rule departs from the code as written: a fee of JSON `Infinity`
      gives a card with fee 0, while the written validator raises and no card is built. */
  lemma InfiniteFeeGivesZero(id: string, name: string, bank: string, floatOf: FloatParser)
    ensures CoerceIntAsWritten(JNumber(PosInf), floatOf) == Failure(OverflowError)
    ensures var data := JObject(map["id" := JString(id), "name" := JString(name), "bank" := JString(bank),
                                  "annualFee" := JNumber(PosInf)]);
            ParseCard(data, floatOf).Success? && ParseCard(data, floatOf).value.annualFee == 0
  {
    var m := map["id" := JString(id), "name" := JString(name), "bank" := JString(bank)];
    assert m[("annualFee") := JNumber(PosInf)] == map["id" := JString(id), "name" := JString(name),
      "bank" := JString(bank), "annualFee" := JNumber(PosInf)];
    assert m - {"annualFee"} == m;
    MinimalCard(id, name, bank, floatOf);
    NumbersNeverReject(m, "annualFee", JNumber(PosInf), floatOf);
    var data := m["annualFee" := JNumber(PosInf)];
    CardNumbers(data, floatOf, ParseCard(JObject(data), floatOf).value);
  }

  /** Name lookup of a reward category. */
  function Category(r: RewardCategory, key: string): (f: PyFloat) {
    match key
    case "dining" => r.dining
    case "travel" => r.travel
    case "fuel" => r.fuel
    case "grocery" => r.grocery
    case "shopping" => r.shopping
    case "utilities" => r.utilities
    case "entertainment" => r.entertainment
    case "international" => r.international
    case _ => Zero
  }

  const Categories: seq<string> :=
    ["dining", "travel", "fuel", "grocery", "shopping", "utilities", "entertainment", "international"]

  /** Every category is coerced from its own key and from nothing else (0 when absent),
      so a rewards object is never rejected. */
  lemma RewardsPerCategory(m: map<string, Json>, key: string, floatOf: FloatParser)
    requires key in Categories
    ensures ParseRewards(JObject(m), floatOf).Some?
    ensures Category(ParseRewards(JObject(m), floatOf).value, key) == FloatField(m, key, Zero, floatOf)
  {
  }

  /** Changing one category's raw value changes that category only. */
  lemma RewardsIndependent(m: map<string, Json>, key: string, other: string, v: Json, floatOf: FloatParser)
    requires key in Categories && other in Categories && other != key
    ensures Category(ParseRewards(JObject(m[key := v]), floatOf).value, key) == CoerceFloat(v, floatOf)
    ensures Category(ParseRewards(JObject(m[key := v]), floatOf).value, other)
         == Category(ParseRewards(JObject(m), floatOf).value, other)
  {
    RewardsPerCategory(m[key := v], key, floatOf);
    RewardsPerCategory(m[key := v], other, floatOf);
    RewardsPerCategory(m, other, floatOf);
  }

  /** A constructed card holds the coerced numbers: fees by the integer rule, `rewardRate`
      and `rewardPointValue` by the float rule, and the declared defaults for absent keys,
      0.25 for `rewardPointValue` only when the key is absent. */
  lemma CardNumbers(m: map<string, Json>, floatOf: FloatParser, c: CreditCard)
    requires ParseCard(JObject(m), floatOf) == Success(c)
    ensures c.annualFee == (if "annualFee" in m then CoerceInt(m["annualFee"], floatOf) else 0)
    ensures c.joiningFee == (if "joiningFee" in m then CoerceInt(m["joiningFee"], floatOf) else 0)
    ensures c.rewardRate == (if "rewardRate" in m then CoerceFloat(m["rewardRate"], floatOf) else Zero)
    ensures c.rewardPointValue
         == (if "rewardPointValue" in m then CoerceFloat(m["rewardPointValue"], floatOf) else Finite(0.25))
  {
  }

  /** A constructed card holds each defaulted string field as given, or its declared default
      when the key is absent. */
  lemma CardStrings(m: map<string, Json>, floatOf: FloatParser, c: CreditCard)
    requires ParseCard(JObject(m), floatOf) == Success(c)
    ensures c.network == (if "network" in m then m["network"].s else "Unknown")
    ensures c.color == (if "color" in m then m["color"].s else "#1a1a1a")
    ensures c.accentColor == (if "accentColor" in m then m["accentColor"].s else "#00ff00")
    ensures c.gradient == (if "gradient" in m then m["gradient"].s else "")
  {
  }

  /** A constructed card holds each optional string as given, and `None` when the key is
      absent or holds `null`. */
  lemma CardOptionals(m: map<string, Json>, floatOf: FloatParser, c: CreditCard)
    requires ParseCard(JObject(m), floatOf) == Success(c)
    ensures c.rewardPointsName
         == (if "rewardPointsName" !in m || m["rewardPointsName"] == JNull then None else Some(m["rewardPointsName"].s))
    ensures c.cardNumber
         == (if "cardNumber" !in m || m["cardNumber"] == JNull then None else Some(m["cardNumber"].s))
    ensures c.expiryDate
         == (if "expiryDate" !in m || m["expiryDate"] == JNull then None else Some(m["expiryDate"].s))
    ensures c.cardholderName
         == (if "cardholderName" !in m || m["cardholderName"] == JNull then None else Some(m["cardholderName"].s))
  {
  }

  /** A list field that was accepted: empty when the key is absent, otherwise one element
      per given item, in order, each the accepted form of its item. */
  lemma ListFieldValue<T>(m: map<string, Json>, key: string, elem: Json -> Option<T>, xs: seq<T>)
    requires ListField(m, key, elem) == Some(xs)
    ensures key !in m ==> xs == []
    ensures key in m ==> m[key].JArray? && |xs| == |m[key].items|
    ensures key in m ==> forall i :: 0 <= i < |xs| ==> elem(m[key].items[i]) == Some(xs[i])
  {
  }

  /** A constructed card holds the nested rewards record and the benefits built from the
      given values, and the declared defaults (zero rewards, no benefits) for absent keys. */
  lemma CardNested(m: map<string, Json>, floatOf: FloatParser, c: CreditCard)
    requires ParseCard(JObject(m), floatOf) == Success(c)
    ensures "rewards" in m ==> m["rewards"].JObject? && c.rewards == ParseRewards(m["rewards"], floatOf).value
    ensures "rewards" !in m ==> c.rewards == NoRewards()
    ensures "benefits" !in m ==> c.benefits == []
    ensures "benefits" in m ==> m["benefits"].JArray? && |c.benefits| == |m["benefits"].items|
    ensures "benefits" in m ==>
      forall i :: 0 <= i < |c.benefits| ==> ParseBenefit(m["benefits"].items[i]) == Some(c.benefits[i])
  {
    ListFieldValue(m, "benefits", ParseBenefit, c.benefits);
  }

  /** The remaining list fields likewise: the given items in order, each accepted, or the
      empty default. */
  lemma CardLists(m: map<string, Json>, floatOf: FloatParser, c: CreditCard)
    requires ParseCard(JObject(m), floatOf) == Success(c)
    ensures "milestones" !in m ==> c.milestones == []
    ensures "milestones" in m ==> m["milestones"].JArray? && |c.milestones| == |m["milestones"].items|
    ensures "milestones" in m ==>
      forall i :: 0 <= i < |c.milestones| ==> ParseMilestone(m["milestones"].items[i], floatOf) == Some(c.milestones[i])
    ensures "bestMerchants" !in m ==> c.bestMerchants == []
    ensures "bestMerchants" in m ==> m["bestMerchants"].JArray? && |c.bestMerchants| == |m["bestMerchants"].items|
    ensures "bestMerchants" in m ==>
      forall i :: 0 <= i < |c.bestMerchants| ==> ParseMerchant(m["bestMerchants"].items[i]) == Some(c.bestMerchants[i])
    ensures "mostlyUsedFor" !in m ==> c.mostlyUsedFor == []
    ensures "mostlyUsedFor" in m ==> m["mostlyUsedFor"].JArray? && |c.mostlyUsedFor| == |m["mostlyUsedFor"].items|
    ensures "mostlyUsedFor" in m ==>
      forall i :: 0 <= i < |c.mostlyUsedFor| ==> m["mostlyUsedFor"].items[i] == JString(c.mostlyUsedFor[i])
  {
    ListFieldValue(m, "milestones", (v: Json) => ParseMilestone(v, floatOf), c.milestones);
    ListFieldValue(m, "bestMerchants", ParseMerchant, c.bestMerchants);
    ListFieldValue(m, "mostlyUsedFor", AsString, c.mostlyUsedFor);
  }

  /** Milestones follow the same integer rule for `spend` and `value`. */
  lemma MilestoneNumbers(m: map<string, Json>, floatOf: FloatParser)
    requires "benefit" !in m || m["benefit"].JString?
    ensures ParseMilestone(JObject(m), floatOf).Some?
    ensures ParseMilestone(JObject(m), floatOf).value.spend == IntField(m, "spend", floatOf)
    ensures ParseMilestone(JObject(m), floatOf).value.value == IntField(m, "value", floatOf)
    ensures ParseMilestone(JObject(m), floatOf).value.benefit == (if "benefit" in m then m["benefit"].s else "")
  {
  }

  const NumericKeys: set<string> := {"annualFee", "joiningFee", "rewardRate", "rewardPointValue"}

  /** Whether a card is constructed does not depend on what its numeric fields hold. */
  lemma NumbersNeverReject(m: map<string, Json>, key: string, v: Json, floatOf: FloatParser)
    requires key in NumericKeys
    ensures ParseCard(JObject(m[key := v]), floatOf).Success? <==> ParseCard(JObject(m - {key}), floatOf).Success?
  {
    AcceptsIgnoresNumbers(m[key := v], m - {key}, floatOf);
  }

  /** Two maps that agree outside the numeric keys are accepted alike. */
  lemma AcceptsIgnoresNumbers(m1: map<string, Json>, m2: map<string, Json>, floatOf: FloatParser)
    requires forall k :: k !in NumericKeys ==> (k in m1 <==> k in m2) && (k in m1 ==> m1[k] == m2[k])
    ensures Accepts(m1, floatOf) <==> Accepts(m2, floatOf)
  {
    StringsIgnoreNumbers(m1, m2);
    NestedIgnoreNumbers(m1, m2, floatOf);
  }

  lemma StringsIgnoreNumbers(m1: map<string, Json>, m2: map<string, Json>)
    requires forall k :: k !in NumericKeys ==> (k in m1 <==> k in m2) && (k in m1 ==> m1[k] == m2[k])
    ensures AcceptsStrings(m1) <==> AcceptsStrings(m2)
  {
    assert RequiredStr(m1, "id") == RequiredStr(m2, "id") by { SameKey(m1, m2, "id"); }
    assert RequiredStr(m1, "name") == RequiredStr(m2, "name") by { SameKey(m1, m2, "name"); }
    assert RequiredStr(m1, "bank") == RequiredStr(m2, "bank") by { SameKey(m1, m2, "bank"); }
    assert StrOr(m1, "network", "Unknown") == StrOr(m2, "network", "Unknown") by { SameKey(m1, m2, "network"); }
    assert StrOr(m1, "color", "#1a1a1a") == StrOr(m2, "color", "#1a1a1a") by { SameKey(m1, m2, "color"); }
    assert StrOr(m1, "accentColor", "#00ff00") == StrOr(m2, "accentColor", "#00ff00") by {
      SameKey(m1, m2, "accentColor");
    }
    assert StrOr(m1, "gradient", "") == StrOr(m2, "gradient", "") by { SameKey(m1, m2, "gradient"); }
    assert OptionalStr(m1, "rewardPointsName") == OptionalStr(m2, "rewardPointsName") by {
      SameKey(m1, m2, "rewardPointsName");
    }
    assert OptionalStr(m1, "cardNumber") == OptionalStr(m2, "cardNumber") by { SameKey(m1, m2, "cardNumber"); }
    assert OptionalStr(m1, "expiryDate") == OptionalStr(m2, "expiryDate") by { SameKey(m1, m2, "expiryDate"); }
    assert OptionalStr(m1, "cardholderName") == OptionalStr(m2, "cardholderName") by {
      SameKey(m1, m2, "cardholderName");
    }
  }

  lemma NestedIgnoreNumbers(m1: map<string, Json>, m2: map<string, Json>, floatOf: FloatParser)
    requires forall k :: k !in NumericKeys ==> (k in m1 <==> k in m2) && (k in m1 ==> m1[k] == m2[k])
    ensures AcceptsNested(m1, floatOf) <==> AcceptsNested(m2, floatOf)
  {
    assert RewardsField(m1, floatOf) == RewardsField(m2, floatOf) by { SameKey(m1, m2, "rewards"); }
    SameList(m1, m2, "benefits", ParseBenefit);
    SameList(m1, m2, "milestones", (v: Json) => ParseMilestone(v, floatOf));
    SameList(m1, m2, "bestMerchants", ParseMerchant);
    SameList(m1, m2, "mostlyUsedFor", AsString);
  }

  lemma SameList<T>(m1: map<string, Json>, m2: map<string, Json>, key: string, elem: Json -> Option<T>)
    requires key !in NumericKeys
    requires forall k :: k !in NumericKeys ==> (k in m1 <==> k in m2) && (k in m1 ==> m1[k] == m2[k])
    ensures ListField(m1, key, elem) == ListField(m2, key, elem)
  {
    SameKey(m1, m2, key);
  }

  lemma SameKey(m1: map<string, Json>, m2: map<string, Json>, k: string)
    requires k !in NumericKeys
    requires forall k :: k !in NumericKeys ==> (k in m1 <==> k in m2) && (k in m1 ==> m1[k] == m2[k])
    ensures k in m1 <==> k in m2
    ensures k in m1 ==> m1[k] == m2[k]
  {
  }

  /** Construction fails, naming the field, when `id`, `name` or `bank` is absent or not a string. */
  lemma RequiredCardField(m: map<string, Json>, key: string, floatOf: FloatParser)
    requires key in {"id", "name", "bank"}
    requires key !in m || !m[key].JString?
    ensures ParseCard(JObject(m), floatOf).Failure?
    ensures key in ParseCard(JObject(m), floatOf).error.fields
  {
  }

  /** A benefit lacking `icon`, `title` or `description` is rejected, and so is every card
      that lists such a benefit. */
  lemma IncompleteBenefitRejected(m: map<string, Json>, key: string, floatOf: FloatParser, card: map<string, Json>, i: nat)
    requires key in {"icon", "title", "description"} && key !in m
    requires "benefits" in card && card["benefits"].JArray?
    requires i < |card["benefits"].items| && card["benefits"].items[i] == JObject(m)
    ensures ParseBenefit(JObject(m)).None?
    ensures ParseCard(JObject(card), floatOf).Failure?
    ensures "benefits" in ParseCard(JObject(card), floatOf).error.fields
  {
    assert ListField(card, "benefits", ParseBenefit).None?;
  }

  /** A merchant needs `name` and `multiplier`; `logo` defaults to "". */
  lemma MerchantFields(name: string, multiplier: string, m: map<string, Json>, key: string)
    requires key in {"name", "multiplier"} && key !in m
    ensures ParseMerchant(JObject(m)).None?
    ensures ParseMerchant(JObject(map["name" := JString(name), "multiplier" := JString(multiplier)]))
         == Some(BestMerchant(name, "", multiplier))
  {
  }

  /** A card given only `id`, `name` and `bank` takes every stated default. */
  lemma MinimalCard(id: string, name: string, bank: string, floatOf: FloatParser)
    ensures ParseCard(JObject(map["id" := JString(id), "name" := JString(name), "bank" := JString(bank)]), floatOf)
         == Success(CreditCard(
              id, name, bank, "Unknown", 0, 0, Finite(0.0), NoRewards(), "#1a1a1a", "#00ff00", "",
              [], [], [], Finite(0.25), None, [], None, None, None))
  {
    var m := map["id" := JString(id), "name" := JString(name), "bank" := JString(bank)];
    assert AcceptsStrings(m);
    assert AcceptsNested(m, floatOf);
  }
}
