/** The decision logic of `validate_phone_number_twilio` in
    `src/phone/validator.py`. Whether the lookup client could be set up and
    what the remote lookup answered are parameters; the function maps them
    to the result record exactly as the source fills its result dictionary. */
module TwilioValidator {
  import opened Common

  /** A dictionary such as `line_type_intelligence` or `carrier_info`; a value may be `None`. */
  type Info = map<string, Option<string>>

  /** The attributes of a lookup record that the validator reads. An
      attribute that is missing and one that is `None` read the same. */
  datatype PhoneInfo = PhoneInfo(
    valid: Option<bool>,
    callingCountryCode: Option<string>,
    phoneNumber: Option<string>,
    nationalFormat: Option<string>,
    countryCode: Option<string>,
    lineTypeIntelligence: Option<Info>,
    carrierInfo: Option<Info>)

  /** What the lookup call does: return a record, raise the client's REST
      error (with its status, its code, which may be `None`, and its message)
      or raise anything else. */
  datatype LookupOutcome =
    | Success(info: PhoneInfo)
    | RestError(status: int, code: Option<int>, msg: string)
    | OtherError(description: string)

  /** The `details` entry: `{}` or the six looked-up fields. */
  datatype Details =
    | NoDetails
    | Details(
        callingCountryCode: Option<string>,
        phoneNumber: Option<string>,
        nationalFormat: Option<string>,
        countryCode: Option<string>,
        lineType: Option<string>,
        carrierName: Option<string>)

  /** The result dictionary. `isValid` is `None`, `True` or `False`. */
  datatype ValidationResult = ValidationResult(
    originalNumber: string,
    isValid: Option<bool>,
    apiStatus: string,
    errorMessage: Option<string>,
    details: Details)

  const SkippedMessage := "Twilio validation skipped" + ": Twilio client not initialized (check credentials)."
  const FormatMessage := "Invalid format" + ": Number must be in E.164 format (e.g., +14155552671)."

  /** `d.get(key)` on a dictionary whose block was present and non-empty. */
  function Get(d: Info, key: string): Option<string> {
    if key in d then d[key] else None
  }

  /** `block.get(key)` if the block is present and truthy (non-empty), else `None`. */
  function FromBlock(block: Option<Info>, key: string): (r: Option<string>)
    ensures block.None? || block.value == map[] ==> r == None
    ensures block.Some? && key in block.value ==> r == block.value[key]
  {
    match block
    case Some(d) => if d != map[] then Get(d, key) else None
    case None => None
  }

  function DetailsOf(info: PhoneInfo): Details {
    Details(info.callingCountryCode, info.phoneNumber, info.nationalFormat, info.countryCode,
            FromBlock(info.lineTypeIntelligence, "type"), FromBlock(info.carrierInfo, "name"))
  }

  /** `f"{code}"` for an optional integer: `None` prints as "None". */
  function CodeText(code: Option<int>): string {
    match code
    case Some(c) => IntToString(c)
    case None => "None"
  }

  function RestErrorMessage(status: int, code: Option<int>, msg: string): string {
    "Twilio API Error: Status=" + IntToString(status) + ", Code=" + CodeText(code) + ", Message=" + msg
  }

  function UnexpectedErrorMessage(description: string): string {
    "Unexpected error during validation: " + description
  }

  /** `validate_phone_number_twilio(number)`, with the availability flag of
      the client and the outcome the lookup would have. */
  function ValidatePhoneNumberTwilio(number: string, clientAvailable: bool, outcome: LookupOutcome): (r: ValidationResult)
    ensures r.originalNumber == number
    // no client: skipped and assumed valid, whatever the number
    ensures !clientAvailable ==>
      && r.apiStatus == "skipped" && r.isValid == Some(true) && r.details == NoDetails
      && r.errorMessage.Some? && StartsWith(r.errorMessage.value, "Twilio validation skipped")
    // not E.164: rejected
    ensures clientAvailable && !StartsWith(number, "+") ==>
      && r.apiStatus == "failed" && r.isValid == Some(false) && r.details == NoDetails
      && r.errorMessage.Some? && StartsWith(r.errorMessage.value, "Invalid format")
    // a record came back
    ensures clientAvailable && StartsWith(number, "+") && outcome.Success? ==>
      && r.apiStatus == "successful" && r.errorMessage == None
      && r.isValid == outcome.info.valid
      && r.details.Details?
      && r.details.callingCountryCode == outcome.info.callingCountryCode
      && r.details.phoneNumber == outcome.info.phoneNumber
      && r.details.nationalFormat == outcome.info.nationalFormat
      && r.details.lineType == FromBlock(outcome.info.lineTypeIntelligence, "type")
      && r.details.carrierName == FromBlock(outcome.info.carrierInfo, "name")
      && r.details.countryCode == outcome.info.countryCode
    // the lookup raised
    ensures clientAvailable && StartsWith(number, "+") && !outcome.Success? ==>
      && r.apiStatus == "failed" && r.isValid == None && r.details == NoDetails && r.errorMessage.Some?
    ensures clientAvailable && StartsWith(number, "+") && outcome.RestError? ==>
      StartsWith(r.errorMessage.value, "Twilio API Error: Status=")
    ensures clientAvailable && StartsWith(number, "+") && outcome.OtherError? ==>
      StartsWith(r.errorMessage.value, "Unexpected error")
  {
    var initial := ValidationResult(number, None, "not_attempted", None, NoDetails);
    if !clientAvailable then
      initial.(apiStatus := "skipped", isValid := Some(true), errorMessage := Some(SkippedMessage))
    else if number == [] || number[0] != '+' then
      initial.(apiStatus := "failed", isValid := Some(false), errorMessage := Some(FormatMessage))
    else
      match outcome
      case Success(info) =>
        initial.(apiStatus := "successful", isValid := info.valid, details := DetailsOf(info))
      case RestError(status, code, msg) =>
        initial.(apiStatus := "failed", isValid := None, errorMessage := Some(RestErrorMessage(status, code, msg)))
      case OtherError(description) =>
        initial.(apiStatus := "failed", isValid := None, errorMessage := Some(UnexpectedErrorMessage(description)))
  }

  /** When the client is missing or the format is wrong the lookup is never
      made: the result does not depend on what it would have answered. */
  lemma NoLookupBeforeChecks(number: string, clientAvailable: bool, o1: LookupOutcome, o2: LookupOutcome)
    requires !clientAvailable || !StartsWith(number, "+")
    ensures ValidatePhoneNumberTwilio(number, clientAvailable, o1) == ValidatePhoneNumberTwilio(number, clientAvailable, o2)
  {
  }

  /** `is_valid` is False exactly in the format-rejection branch and when a
      record came back that says the number is not valid. */
  lemma IsValidFalseIff(number: string, clientAvailable: bool, outcome: LookupOutcome)
    ensures ValidatePhoneNumberTwilio(number, clientAvailable, outcome).isValid == Some(false) <==>
      clientAvailable && (!StartsWith(number, "+") || (outcome.Success? && outcome.info.valid == Some(false)))
  {
  }

  /** A REST error never marks the number invalid, and its message carries
      the status and the code, as in "Status=404" and "Code=20404" (or
      "Code=None" when the error has no code). */
  lemma RestErrorReport(number: string, status: int, code: Option<int>, msg: string)
    requires StartsWith(number, "+")
    ensures var r := ValidatePhoneNumberTwilio(number, true, RestError(status, code, msg));
      && r.isValid == None
      && Contains(r.errorMessage.value, "Status=" + IntToString(status))
      && Contains(r.errorMessage.value, "Code=" + CodeText(code))
  {
    var head := "Twilio API Error: ";
    var s := IntToString(status);
    var c := CodeText(code);
    var m := RestErrorMessage(status, code, msg);
    assert m == head + ("Status=" + s) + ", " + ("Code=" + c) + ", Message=" + msg;
    assert ("Status=" + s) <= m[|head|..];
    var k := |head| + |"Status=" + s| + |", "|;
    assert ("Code=" + c) <= m[k..];
  }

  /** The error of the test suite: status 404, code 20404. */
  lemma RestErrorExample(number: string, msg: string)
    requires StartsWith(number, "+")
    ensures var r := ValidatePhoneNumberTwilio(number, true, RestError(404, Some(20404), msg));
      && r.apiStatus == "failed" && r.isValid == None && r.details == NoDetails
      && Contains(r.errorMessage.value, "Status=404")
      && Contains(r.errorMessage.value, "Code=20404")
  {
    RestErrorReport(number, 404, Some(20404), msg);
    StatusCodeText();
    assert "Status=" + IntToString(404) == "Status=404";
    assert "Code=" + CodeText(Some(20404)) == "Code=20404";
  }

  lemma StatusCodeText()
    ensures IntToString(404) == "404" && IntToString(20404) == "20404"
  {
    assert NatToString(4) == "4";
    assert NatToString(40) == "40";
    assert NatToString(404) == "404";
    assert NatToString(2) == "2";
    assert NatToString(20) == "20";
    assert NatToString(204) == "204";
    assert NatToString(2040) == "2040";
    assert NatToString(20404) == "20404";
  }
}
