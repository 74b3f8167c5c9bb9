/**
  The GET /api/classify-number handler with the fact lookup abstracted to its
  outcome: validation of the query value, the classification record, and the
  choice of fun_fact, which absorbs every lookup failure into a 200 response.
 */
module Classify {
  import opened Wrappers
  import opened Decimal
  import opened Primality
  import opened Perfection
  import opened DigitProperties

  /** What the fact lookup produced: the response data, or an error with its optional code. */
  datatype Lookup = Fetched(data: string) | Failed(code: Option<string>)

  /** A JSON body: `{number: echo, error: true}` on rejection, the classification record otherwise. */
  datatype Body =
    | ErrorBody(echo: string)
    | Classification(number: int, isPrime: bool, isPerfect: bool,
                     properties: seq<string>, digitSum: int, funFact: string)

  datatype Response = Response(status: int, body: Body)

  const TimeoutCode := "ECONNABORTED"
  const TimeoutFact := "Fact request timed out"
  const FallbackPrefix := "No fun fact available for "

  /**
    The query check: an absent or empty value and a value that is not a
    decimal integer are rejected, echoing the value or 'undefined'.
   */
  function Validate(query: Option<string>): (r: Result<int, string>)
    ensures r.Failure? <==> query.None? || ParseInt(query.value).None?
    ensures r.Success? ==> ParseInt(query.value) == Some(r.value)
    ensures r.Failure? ==>
              r.error == if query.None? || query.value == "" then "undefined" else query.value
  {
    match query
    case None => Failure("undefined")
    case Some(s) =>
      if s == "" then Failure("undefined")
      else match ParseInt(s)
        case None => Failure(s)
        case Some(n) => Success(n)
  }

  /** The properties list: "armstrong" when it applies, then the parity. */
  function Properties(n: int): (ps: seq<string>)
    ensures 1 <= |ps| <= 2
    ensures ps[|ps| - 1] == if n % 2 == 0 then "even" else "odd"
    ensures "armstrong" in ps <==> IsArmstrong(n)
    ensures forall k :: 0 <= k < |ps| - 1 ==> ps[k] == "armstrong"
  {
    JsRemZero(n, 2);
    (if IsArmstrong(n) then ["armstrong"] else []) + [if JsRem(n, 2) == 0 then "even" else "odd"]
  }

  /** fun_fact: the fetched data verbatim, or the timeout or the generic fallback text. */
  function FunFact(num: int, outcome: Lookup): (fact: string)
    ensures outcome.Fetched? ==> fact == outcome.data
    ensures outcome == Failed(Some(TimeoutCode)) ==> fact == TimeoutFact
    ensures outcome.Failed? && outcome.code != Some(TimeoutCode) ==>
              fact == FallbackPrefix + IntToString(num)
  {
    match outcome
    case Fetched(data) => data
    case Failed(code) =>
      if code == Some(TimeoutCode) then TimeoutFact else FallbackPrefix + IntToString(num)
  }

  /**
    The 200 response for a validated number. The source builds it in two
    textually identical blocks, one after a successful lookup and one in the
    catch branch, which differ only in fun_fact; here they are one function.
   */
  function ClassifyResponse(num: int, outcome: Lookup): (r: Response)
    ensures r.status == 200 && r.body.Classification? && r.body.number == num
    ensures r.body.isPrime == Prime(num) && r.body.isPerfect == Perfect(num)
    ensures r.body.digitSum == DecimalDigitSum(Abs(num))
    ensures r.body.properties == Properties(num)
    ensures "armstrong" in r.body.properties <==> IsArmstrong(num)
    ensures 1 <= |r.body.properties| <= 2
    ensures r.body.properties[|r.body.properties| - 1] == if num % 2 == 0 then "even" else "odd"
    ensures r.body.funFact == FunFact(num, outcome)
  {
    DigitSumReference(num);
    Response(200, Classification(num, Prime(num), Perfect(num), Properties(num),
                                 DigitSum(num), FunFact(num, outcome)))
  }

  /** The whole handler: validation, then classification around the lookup outcome. */
  function Respond(query: Option<string>, outcome: Lookup): (r: Response)
    ensures r.status == 400 <==> Validate(query).Failure?
    ensures r.status == 400 ==> r.body == ErrorBody(Validate(query).error)
    ensures r.status != 400 ==> r.status == 200 && r.body.Classification? &&
                                r.body.number == Validate(query).value
    ensures Validate(query).Success? ==> r == ClassifyResponse(Validate(query).value, outcome)
  {
    match Validate(query)
    case Failure(echo) => Response(400, ErrorBody(echo))
    case Success(num) => ClassifyResponse(num, outcome)
  }

  /**
    The handler with the helper loops: after validation it runs IsPrime and
    IsPerfect once on the parsed number and then chooses fun_fact from the
    lookup outcome. The source computes the classification after awaiting
    the lookup, in one of two identical blocks; as the computation is pure,
    doing it once beforehand gives the same response.
   */
  method ClassifyNumber(query: Option<string>, outcome: Lookup) returns (resp: Response)
    ensures resp == Respond(query, outcome)
    ensures resp.status == 400 <==> Validate(query).Failure?
  {
    var v := Validate(query);
    if v.Failure? {
      return Response(400, ErrorBody(v.error));
    }
    var num := v.value;
    var prime := IsPrime(num);
    var perfect := IsPerfect(num);
    var fact;
    match outcome {
      case Fetched(data) =>
        fact := data;
      case Failed(code) =>
        var fallback := FallbackPrefix + IntToString(num);
        fact := if code == Some(TimeoutCode) then TimeoutFact else fallback;
    }
    resp := Response(200, Classification(num, prime, perfect, Properties(num), DigitSum(num), fact));
  }

  /** Any decimal integer text is accepted as exactly that number. */
  lemma ValidateDecimal(n: int)
    ensures Validate(Some(IntToString(n))) == Success(n)
  {
    IntToStringRoundTrip(n);
  }

  /** Rejection: the echo is 'undefined' for an absent or empty value, the raw text otherwise. */
  lemma Rejection(query: Option<string>, outcome: Lookup)
    requires query.None? || ParseInt(query.value).None?
    ensures Respond(query, outcome) ==
            Response(400, ErrorBody(if query.None? || query.value == "" then "undefined" else query.value))
  {
  }

  /**
    The lookup outcome never decides the status, and of the classification
    record it changes only fun_fact.
   */
  lemma LookupOnlyChangesFunFact(query: Option<string>, o1: Lookup, o2: Lookup)
    ensures Respond(query, o1).status == Respond(query, o2).status
    ensures Respond(query, o1).body.ErrorBody? ==> Respond(query, o1) == Respond(query, o2)
    ensures Respond(query, o1).body.Classification? ==>
              Respond(query, o1).body.(funFact := "") == Respond(query, o2).body.(funFact := "")
  {
  }

  /** The response to the decimal text of n is a 200 classification of n itself. */
  lemma RespondDecimal(n: int, outcome: Lookup)
    ensures var r := Respond(Some(IntToString(n)), outcome);
      && r.status == 200 && r.body.Classification?
      && r.body.number == n
      && r.body.isPrime == Prime(n) && r.body.isPerfect == Perfect(n)
      && r.body.digitSum == DecimalDigitSum(Abs(n))
      && r.body.properties == Properties(n)
      && 1 <= |r.body.properties| <= 2
      && ("armstrong" in r.body.properties <==> IsArmstrong(n))
      && r.body.properties[|r.body.properties| - 1] == (if n % 2 == 0 then "even" else "odd")
      && r.body.funFact == FunFact(n, outcome)
  {
    ValidateDecimal(n);
  }

  /** The generic fallback names the number: its tail parses back to it. */
  lemma FallbackNamesNumber(num: int, code: Option<string>)
    requires code != Some(TimeoutCode)
    ensures var f := FunFact(num, Failed(code));
      && |f| > |FallbackPrefix| && f[..|FallbackPrefix|] == FallbackPrefix
      && ParseInt(f[|FallbackPrefix|..]) == Some(num)
      && f != TimeoutFact
  {
    var f := FunFact(num, Failed(code));
    assert f[|FallbackPrefix|..] == IntToString(num);
    IntToStringRoundTrip(num);
    assert f[0] == 'N' != TimeoutFact[0];
  }

  lemma ExampleFour()
    ensures Respond(Some("4"), Fetched("4 is the number of...")) ==
            Response(200, Classification(4, false, false, ["armstrong", "even"], 4, "4 is the number of..."))
  {
    assert ParseInt("4") == Some(4);
    assert 4 % 2 == 0;
    SingleDigitArmstrong(4);
    DigitSumExamples();
    assert !Prime(4);
    assert DivisorSum(4, 1, 4) == 3;
    assert Properties(4) == ["armstrong", "even"];
  }

  lemma ExampleTimeout()
    ensures var r := Respond(Some("371"), Failed(Some(TimeoutCode)));
      && r.status == 200 && r.body.Classification?
      && r.body.number == 371 && !r.body.isPrime
      && r.body.properties == ["armstrong", "odd"]
      && r.body.funFact == TimeoutFact
  {
    assert "371"[..2] == "37" && "37"[..1] == "3" && "3"[..0] == "";
    assert ParseInt("371") == Some(371);
    assert 371 % 7 == 0;
    ArmstrongExamples();
  }

  lemma ExampleRejections(outcome: Lookup)
    ensures Respond(Some("abc"), outcome) == Response(400, ErrorBody("abc"))
    ensures Respond(Some(""), outcome) == Response(400, ErrorBody("undefined"))
    ensures Respond(None, outcome) == Response(400, ErrorBody("undefined"))
  {
    assert !IsDigit('a');
  }
}
