/**
 * sms_service.py: the text of the "load finished" message, derived from the
 * machine id, and the decision part of `send_finish_sms`. The HTTP call to
 * the SMS provider is a function parameter that maps the prepared request
 * to the provider's outcome.
 */
module Sms {
  import opened Wrappers
  import opened Helpers
  import opened PyStr

  const BoysFloor := "third floor (Boys)"
  const GirlsFloor := "second floor (Girls)"
  const Washer := "washing machine"
  const Dryer := "drying machine"
  const MessagePrefix := "Your session is done. Please go to "
  const MessageSuffix := " to pick up your load. Don't forget to check your belongings and report any issues to the boarding parent."
  const UnknownSid := "SM_UNKNOWN"
  const MissingConfigType := "MISSING_CONFIG"
  const MissingConfigDetails := "Missing TWILIO_ACCOUNT_SID / TWILIO_AUTH_TOKEN / TWILIO_FROM_NUMBER"

  predicate EndsWith(s: string, suffix: string)
  {
    |suffix| <= |s| && s[|s| - |suffix|..] == suffix
  }

  /** `to_e164_us`: the US country code in front of a ten-digit number. */
  function ToE164Us(phone10: string): (r: string)
    ensures |r| == |phone10| + 2
    ensures "+1" <= r && r[2..] == phone10
  {
    "+1" + phone10
  }

  /** A cleaned ten-digit phone becomes a twelve-character E.164 number, `+1` then the digits. */
  lemma E164OfCleanPhone(phone10: string)
    requires |phone10| == 10 && forall i :: 0 <= i < 10 ==> IsDigit(phone10[i])
    ensures var r := ToE164Us(phone10);
      |r| == 12 && r[0] == '+' && r[1] == '1' && forall i :: 2 <= i < 12 ==> IsDigit(r[i])
  {
  }

  const DecimalDigits := "0123456789"

  /** `int(c)` of one decimal digit character. */
  function DigitValue(c: char): (n: int)
    requires IsDigit(c)
    ensures 0 <= n <= 9 && DecimalDigits[n] == c
  {
    c as int - '0' as int
  }

  /** `str(n)` of a number below ten, as an f-string prints it: its one digit character. */
  function DigitChar(n: int): (c: char)
    requires 0 <= n <= 9
    ensures c == DecimalDigits[n]
    ensures IsDigit(c) && DigitValue(c) == n
  {
    ('0' as int + n) as char
  }

  /** Floor text: M is the boys' third floor, any other floor code the girls' second floor. */
  function FloorText(floorCode: char): (r: string)
    ensures r == BoysFloor <==> floorCode == 'M'
    ensures r == GirlsFloor <==> floorCode != 'M'
  {
    if floorCode == 'M' then BoysFloor else GirlsFloor
  }

  /** Machine type: numbers 1 to 4 are washers, every other number a dryer. */
  function MachineType(num: int): (r: string)
    ensures r == Washer <==> 1 <= num <= 4
    ensures r == Dryer <==> !(1 <= num <= 4)
  {
    if 1 <= num <= 4 then Washer else Dryer
  }

  /**
   * The ids `format_machine_location` formats without raising: it reads
   * positions 0 to 2 and applies `int` to position 2. Every valid machine id
   * is one of them, and so are ids such as MA9 or XA1X that the validator refuses.
   */
  predicate Formattable(machineId: string)
  {
    |machineId| >= 3 && IsDigit(machineId[2])
  }

  /** `format_machine_location`: "<type> <number> in hallway <hall>, <floor text>". */
  function FormatMachineLocation(machineId: string): (r: string)
    requires Formattable(machineId)
    ensures EndsWith(r, BoysFloor) <==> machineId[0] == 'M'
    ensures EndsWith(r, GirlsFloor) <==> machineId[0] != 'M'
    ensures Washer <= r <==> '1' <= machineId[2] <= '4'
    ensures Dryer <= r <==> !('1' <= machineId[2] <= '4')
  {
    var floorCode := machineId[0];
    var hall := machineId[1];
    var num := DigitValue(machineId[2]);
    var r := MachineType(num) + " " + [DigitChar(num)] + " in hallway " + [hall] + ", " + FloorText(floorCode);
    assert r[|r| - |FloorText(floorCode)|..] == FloorText(floorCode);
    // "(Boys)" and "(Girls)" differ in their third-to-last character
    assert r[|r| - 3] == FloorText(floorCode)[|FloorText(floorCode)| - 3];
    assert BoysFloor[|BoysFloor| - 3] == 'y' && GirlsFloor[|GirlsFloor| - 3] == 'l';
    assert r[..|MachineType(num)|] == MachineType(num);
    assert r[0] == MachineType(num)[0] && Washer[0] == 'w' && Dryer[0] == 'd';
    r
  }

  /** The location text spelled out: the id's own digit and hall letter appear in it. */
  lemma LocationLayout(machineId: string)
    requires Formattable(machineId)
    ensures FormatMachineLocation(machineId) ==
      MachineType(DigitValue(machineId[2])) + " " + [machineId[2]] + " in hallway " + [machineId[1]] + ", "
      + FloorText(machineId[0])
  {
    assert DigitChar(DigitValue(machineId[2])) == machineId[2];
  }

  /** The validator refuses MA9, yet its location is formatted: number 9 is a dryer. */
  lemma LocationOfNumberNine()
    ensures !IsValidMachineId(Some("MA9"))
    ensures FormatMachineLocation("MA9") == Dryer + " " + ['9'] + " in hallway " + ['A'] + ", " + BoysFloor
  {
    LocationLayout("MA9");
  }

  /** The validator refuses XA1X, yet its location is formatted from its first three characters. */
  lemma LocationOfLongId()
    ensures !IsValidMachineId(Some("XA1X"))
    ensures FormatMachineLocation("XA1X") == Washer + " " + ['1'] + " in hallway " + ['A'] + ", " + GirlsFloor
  {
    LocationLayout("XA1X");
  }

  /** Where the id's digit and hall letter sit in the location text: right after the type text. */
  lemma LocationPositions(machineId: string)
    requires Formattable(machineId)
    ensures var r := FormatMachineLocation(machineId);
      var t := MachineType(DigitValue(machineId[2]));
      && |t| + 14 < |r|
      && r[|t| + 1] == machineId[2]
      && r[|t| + 14] == machineId[1]
  {
    LocationLayout(machineId);
  }

  /** The text starts with the type, so two ids with one location text have one machine type. */
  lemma SameLocationSameType(a: string, b: string)
    requires Formattable(a) && Formattable(b)
    requires FormatMachineLocation(a) == FormatMachineLocation(b)
    ensures MachineType(DigitValue(a[2])) == MachineType(DigitValue(b[2]))
  {
    var r := FormatMachineLocation(a);
    assert (Washer <= r) == ('1' <= a[2] <= '4') == ('1' <= b[2] <= '4');
  }

  /** The text ends with the floor, so two valid ids with one location text have one floor code. */
  lemma SameLocationSameFloor(a: string, b: string)
    requires IsValidMachineId(Some(a)) && IsValidMachineId(Some(b))
    requires FormatMachineLocation(a) == FormatMachineLocation(b)
    ensures a[0] == b[0]
  {
    var r := FormatMachineLocation(a);
    assert EndsWith(r, BoysFloor) == (a[0] == 'M') == (b[0] == 'M');
  }

  /** With one type text, the number and the hall letter sit at the same positions of the text. */
  lemma SameLocationSameHallAndNumber(a: string, b: string)
    requires Formattable(a) && Formattable(b)
    requires FormatMachineLocation(a) == FormatMachineLocation(b)
    requires MachineType(DigitValue(a[2])) == MachineType(DigitValue(b[2]))
    ensures a[1] == b[1] && a[2] == b[2]
  {
    LocationPositions(a);
    LocationPositions(b);
  }

  /** Two three-character strings that agree at every position are equal. */
  lemma SameThreeCharacters(a: string, b: string)
    requires |a| == 3 && |b| == 3
    requires a[0] == b[0] && a[1] == b[1] && a[2] == b[2]
    ensures a == b
  {
    assert a == [a[0], a[1], a[2]] && b == [b[0], b[1], b[2]];
  }

  /** Distinct machines are described by distinct location texts. */
  lemma LocationInjective(a: string, b: string)
    requires IsValidMachineId(Some(a)) && IsValidMachineId(Some(b))
    requires FormatMachineLocation(a) == FormatMachineLocation(b)
    ensures a == b
  {
    SameLocationSameType(a, b);
    SameLocationSameFloor(a, b);
    SameLocationSameHallAndNumber(a, b);
    SameThreeCharacters(a, b);
  }

  /** `build_finish_message`: fixed prefix, the location, fixed suffix. */
  function BuildFinishMessage(machineId: string): (r: string)
    requires Formattable(machineId)
    ensures MessagePrefix <= r && EndsWith(r, MessageSuffix)
    ensures |r| == |MessagePrefix| + |FormatMachineLocation(machineId)| + |MessageSuffix|
    ensures r[|MessagePrefix|..|r| - |MessageSuffix|] == FormatMachineLocation(machineId)
  {
    var r := MessagePrefix + FormatMachineLocation(machineId) + MessageSuffix;
    assert r[|r| - |MessageSuffix|..] == MessageSuffix;
    assert r[|MessagePrefix|..|r| - |MessageSuffix|] == FormatMachineLocation(machineId);
    r
  }

  /** Distinct machines get distinct messages: the location can be read back from the message. */
  lemma FinishMessageInjective(a: string, b: string)
    requires IsValidMachineId(Some(a)) && IsValidMachineId(Some(b))
    requires BuildFinishMessage(a) == BuildFinishMessage(b)
    ensures a == b
  {
    var m := BuildFinishMessage(a);
    assert FormatMachineLocation(a) == m[|MessagePrefix|..|m| - |MessageSuffix|] == FormatMachineLocation(b);
    LocationInjective(a, b);
  }

  /** The POST the provider receives: endpoint, form fields and basic-auth pair. */
  datatype SmsRequest = SmsRequest(url: string, fromNumber: string, toNumber: string, body: string,
                                   authUser: string, authPassword: string)

  /**
   * What the provider call ended in: an HTTP reply with its status code, the
   * `sid` of its JSON body (`None` when absent) and the error type and details
   * the failure branch derives from the body; or an exception caught around the
   * call (timeout or other), with the error type and details its handler builds.
   */
  datatype ProviderOutcome =
    | HttpReply(statusCode: int, sid: Option<string>, errorType: string, details: string)
    | Raised(errorType: string, details: string)

  /** The dictionary `send_finish_sms` returns: `success` True with `sid`, or False with `error_type` and `details`. */
  datatype SmsResult = Sent(sid: string) | NotSent(errorType: string, details: string) {
    predicate Success() { Sent? }
  }

  /** The three credentials, each stripped, are all non-empty. */
  predicate Configured(accountSid: string, authToken: string, fromNumber: string)
  {
    Strip(accountSid) != "" && Strip(authToken) != "" && Strip(fromNumber) != ""
  }

  /** The request `send_finish_sms` posts for a configured account. */
  function FinishSmsRequest(accountSid: string, authToken: string, fromNumber: string,
                            phone10: string, machineId: string): (req: SmsRequest)
    requires Formattable(machineId)
    ensures req.url == "https://api.twilio.com/2010-04-01/Accounts/" + Strip(accountSid) + "/Messages.json"
    ensures req.toNumber == ToE164Us(phone10)
    ensures req.body == BuildFinishMessage(machineId)
    ensures req.fromNumber == Strip(fromNumber) && req.authUser == Strip(accountSid) && req.authPassword == Strip(authToken)
  {
    var sid := Strip(accountSid);
    SmsRequest("https://api.twilio.com/2010-04-01/Accounts/" + sid + "/Messages.json",
               Strip(fromNumber), ToE164Us(phone10), BuildFinishMessage(machineId), sid, Strip(authToken))
  }

  /** The result classification: a 2xx reply is a success carrying the sid, everything else a failure. */
  function ClassifyOutcome(outcome: ProviderOutcome): (r: SmsResult)
    ensures r.Success() <==> outcome.HttpReply? && 200 <= outcome.statusCode < 300
    ensures r.Success() ==> r.sid == outcome.sid.GetOr(UnknownSid)
    ensures !r.Success() ==> r.errorType == outcome.errorType && r.details == outcome.details
  {
    match outcome
    case HttpReply(code, sid, errorType, details) =>
      if 200 <= code < 300 then Sent(sid.GetOr(UnknownSid)) else NotSent(errorType, details)
    case Raised(errorType, details) => NotSent(errorType, details)
  }

  /**
   * `send_finish_sms` with the credentials passed in and the provider as
   * `provider`: missing credentials short-circuit before any request is built.
   */
  function SendFinishSms(accountSid: string, authToken: string, fromNumber: string,
                         phone10: string, machineId: string,
                         provider: SmsRequest -> ProviderOutcome): (r: SmsResult)
    requires Configured(accountSid, authToken, fromNumber) ==> Formattable(machineId)
    ensures !Configured(accountSid, authToken, fromNumber) ==> r == NotSent(MissingConfigType, MissingConfigDetails)
    ensures Configured(accountSid, authToken, fromNumber) ==>
      r == ClassifyOutcome(provider(FinishSmsRequest(accountSid, authToken, fromNumber, phone10, machineId)))
  {
    if !Configured(accountSid, authToken, fromNumber) then
      NotSent(MissingConfigType, MissingConfigDetails)
    else
      ClassifyOutcome(provider(FinishSmsRequest(accountSid, authToken, fromNumber, phone10, machineId)))
  }

  /** Without configuration the provider is never consulted: any two providers give the same result. */
  lemma MissingConfigIgnoresProvider(accountSid: string, authToken: string, fromNumber: string,
                                     phone10: string, machineId: string,
                                     p: SmsRequest -> ProviderOutcome, q: SmsRequest -> ProviderOutcome)
    requires !Configured(accountSid, authToken, fromNumber)
    ensures SendFinishSms(accountSid, authToken, fromNumber, phone10, machineId, p)
         == SendFinishSms(accountSid, authToken, fromNumber, phone10, machineId, q)
    ensures !SendFinishSms(accountSid, authToken, fromNumber, phone10, machineId, p).Success()
  {
  }

  /** A credential made only of whitespace counts as missing, whichever of the three it is. */
  lemma BlankCredentialIsMissing(accountSid: string, authToken: string, fromNumber: string)
    requires || (forall k :: 0 <= k < |accountSid| ==> IsSpace(accountSid[k]))
             || (forall k :: 0 <= k < |authToken| ==> IsSpace(authToken[k]))
             || (forall k :: 0 <= k < |fromNumber| ==> IsSpace(fromNumber[k]))
    ensures !Configured(accountSid, authToken, fromNumber)
  {
    StripEmptyIff(accountSid);
    StripEmptyIff(authToken);
    StripEmptyIff(fromNumber);
  }
}
