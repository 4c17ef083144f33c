/** The result mapping of `extractPurchaseOrderData`: the reply of the
    language model is trimmed and parsed as JSON; each of the four fields
    becomes the parsed value when that value is truthy and `null` otherwise;
    the token estimate is charged whenever a reply arrived. The completion
    call and `JSON.parse` are collaborators: their outcomes are inputs. */
module Extraction {
  import opened Outcomes
  import opened Text
  import opened Estimators

  /** The values `JSON.parse` can produce. */
  datatype JsValue =
    | JsNull
    | JsBool(b: bool)
    | JsNumber(n: real)
    | JsString(s: string)
    | JsArray(items: seq<JsValue>)
    | JsObject(props: map<string, JsValue>)

  /** ECMAScript ToBoolean on parsed values: `false`, `0`, `""` and `null`
      are falsy (NaN and `undefined` never come out of `JSON.parse`). */
  predicate Truthy(v: JsValue)
  {
    match v
    case JsNull => false
    case JsBool(b) => b
    case JsNumber(n) => n != 0.0
    case JsString(s) => s != []
    case JsArray(_) => true
    case JsObject(_) => true
  }

  /** What `JSON.parse` did with the trimmed reply. */
  datatype ParseResult = Unparsable | Parsed(value: JsValue)

  /** The outcome of the completion call: it raised (network, auth, a reply
      without content), or it replied with `content`, whose trimmed text
      parsed as `parse`. */
  datatype ExtractionCall = CallFailed | Replied(content: string, parse: ParseResult)

  /** The four purchase-order fields; `None` is `null`. */
  datatype PurchaseOrderFields = PurchaseOrderFields(
    description: Option<JsValue>,
    unitNumber: Option<JsValue>,
    customer: Option<JsValue>,
    vendorSupplier: Option<JsValue>)

  /** What the extraction hands back: the fields and the token estimate. */
  datatype ExtractedData = ExtractedData(fields: PurchaseOrderFields, extractionTokens: nat)

  const DescriptionKey := "description"
  const UnitNumberKey := "unit_number"
  const CustomerKey := "customer"
  const VendorSupplierKey := "vendor_supplier"

  /** Whether reading properties of the parsed value throws: only `null` has
      no properties, and reading one is a TypeError the parse `catch` takes. */
  predicate ReadThrows(parse: ParseResult)
  {
    parse.Unparsable? || parse.value.JsNull?
  }

  /** Property access `v[key]` for the four keys read here: the value
      stored under `key` in an object, and `undefined` (`None`) when the
      object lacks it or the value is a boolean, number, string or array,
      none of which has these properties. */
  function Get(v: JsValue, key: string): Option<JsValue>
  {
    if v.JsObject? && key in v.props then Some(v.props[key]) else None
  }

  /** `a || b` with `a` possibly `undefined`, which is falsy. */
  function JsOr(a: Option<JsValue>, b: JsValue): JsValue
  {
    if a.Some? && Truthy(a.value) then a.value else b
  }

  /** `extracted[key] || null` for a parsed value that has properties, with
      `null` represented as `None`: a present field is never falsy. */
  function Field(v: JsValue, key: string): (r: Option<JsValue>)
    ensures r.GetOr(JsNull) == JsOr(Get(v, key), JsNull)
    ensures r.Some? ==> Truthy(r.value)
  {
    match v
    case JsObject(props) =>
      if key in props && Truthy(props[key]) then Some(props[key]) else None
    case _ => None
  }

  /** The four fields read from one parsed value. */
  function FieldsOf(v: JsValue, tokens: nat): ExtractedData
  {
    ExtractedData(
      PurchaseOrderFields(
        Field(v, DescriptionKey), Field(v, UnitNumberKey),
        Field(v, CustomerKey), Field(v, VendorSupplierKey)),
      tokens)
  }

  /** All four fields `null`. */
  function AllNull(tokens: nat): ExtractedData
  {
    ExtractedData(PurchaseOrderFields(None, None, None, None), tokens)
  }

  /** What field `key` of an extraction must be, given what the reply
      parsed to: the truthy value under `key` of an object, or `null`. */
  ghost predicate FieldFromParse(parse: ParseResult, key: string, field: Option<JsValue>)
  {
    if parse.Parsed? && parse.value.JsObject?
       && key in parse.value.props && Truthy(parse.value.props[key])
    then field == Some(parse.value.props[key])
    else field == None
  }

  ghost predicate FieldsFromParse(parse: ParseResult, f: PurchaseOrderFields)
  {
    && FieldFromParse(parse, DescriptionKey, f.description)
    && FieldFromParse(parse, UnitNumberKey, f.unitNumber)
    && FieldFromParse(parse, CustomerKey, f.customer)
    && FieldFromParse(parse, VendorSupplierKey, f.vendorSupplier)
  }

  /** The parse `try` of `extractPurchaseOrderData` and its `catch`: both
      charge `tokens`; a parse error, or `null` whose properties cannot be
      read, leaves all four fields `null`. */
  function MapReply(parse: ParseResult, tokens: nat): (r: ExtractedData)
    ensures FieldsFromParse(parse, r.fields)
    ensures r.extractionTokens == tokens
  {
    if ReadThrows(parse) then AllNull(tokens) else FieldsOf(parse.value, tokens)
  }

  /** `extractPurchaseOrderData(text)`; it never fails. Each field is the
      reply's truthy value under its key, else `null`; the token estimate
      covers the input and the trimmed reply whenever a reply arrived, parsed
      or not, and is zero when the call raised. */
  function ExtractPurchaseOrderData(text: string, call: ExtractionCall): (r: ExtractedData)
    ensures call.CallFailed? ==> r == AllNull(0)
    ensures call.Replied? ==> FieldsFromParse(call.parse, r.fields)
    ensures call.Replied? ==> r.extractionTokens == EstimateTokenCount(text + Trim(call.content))
  {
    match call
    case CallFailed => AllNull(0)
    case Replied(content, parse) =>
      var extractedText := Trim(content);
      MapReply(parse, EstimateTokenCount(text + extractedText))
  }

  /** The `extractedData` object of the response, as JSON: `null` for a
      missing field. */
  function ToJson(f: PurchaseOrderFields): JsValue
  {
    JsObject(map[
      DescriptionKey := f.description.GetOr(JsNull),
      UnitNumberKey := f.unitNumber.GetOr(JsNull),
      CustomerKey := f.customer.GetOr(JsNull),
      VendorSupplierKey := f.vendorSupplier.GetOr(JsNull)])
  }

  /** Every field present is truthy: what `value || null` guarantees. */
  predicate NullDefaulted(f: PurchaseOrderFields)
  {
    && (f.description.Some? ==> Truthy(f.description.value))
    && (f.unitNumber.Some? ==> Truthy(f.unitNumber.value))
    && (f.customer.Some? ==> Truthy(f.customer.value))
    && (f.vendorSupplier.Some? ==> Truthy(f.vendorSupplier.value))
  }

  /** Every extraction result is null-defaulted, and a failed call or an
      unusable reply leaves all four fields `null`. */
  lemma ExtractionIsNullDefaulted(text: string, call: ExtractionCall)
    ensures NullDefaulted(ExtractPurchaseOrderData(text, call).fields)
    ensures call.CallFailed? || ReadThrows(call.parse) ==>
      ExtractPurchaseOrderData(text, call).fields == PurchaseOrderFields(None, None, None, None)
  {
  }

  /** A parsed object holding the JSON of a null-defaulted field yields that
      field again. */
  lemma FieldOfOwnJson(props: map<string, JsValue>, key: string, field: Option<JsValue>)
    requires key in props && props[key] == field.GetOr(JsNull)
    requires field.Some? ==> Truthy(field.value)
    ensures Field(JsObject(props), key) == field
  {
  }

  /** Null-defaulting is stable: a reply that is exactly the JSON of an
      extraction's fields yields the same fields again. */
  lemma ExtractionOfOwnJson(f: PurchaseOrderFields, text: string, content: string)
    requires NullDefaulted(f)
    ensures ExtractPurchaseOrderData(text, Replied(content, Parsed(ToJson(f)))).fields == f
  {
    var props := ToJson(f).props;
    FieldOfOwnJson(props, DescriptionKey, f.description);
    FieldOfOwnJson(props, UnitNumberKey, f.unitNumber);
    FieldOfOwnJson(props, CustomerKey, f.customer);
    FieldOfOwnJson(props, VendorSupplierKey, f.vendorSupplier);
  }
}
