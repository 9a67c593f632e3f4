/** The request and supplier records of the server's interface: the company-name
    validator, the default number of search results, and the confidence bound and optional
    fields of a supplier. Construction either yields the record or fails validation. */
module Schemas {
  import opened Wrappers
  import opened Text
  import Merging

  /** The number of search results processed when a request names none. */
  const DefaultMaxResults: int := 10

  const EmptyNameMessage: string := "Company name cannot be empty"

  datatype ExtractionRequest = ExtractionRequest(companyName: string, maxResults: int)

  /** `validate_company_name`: an empty or all-whitespace name is refused, any other is
      accepted without its surrounding whitespace. */
  function ValidateCompanyName(v: string): (r: Result<string, string>)
    ensures r.Failure? <==> forall i :: 0 <= i < |v| ==> IsSpace(v[i])
    ensures r.Failure? ==> r.error == EmptyNameMessage
    ensures r.Success? ==> r.value != [] && !IsSpace(r.value[0]) && !IsSpace(r.value[|r.value| - 1])
  {
    StripEmpty(v);
    StripEnds(v);
    if v == [] || Strip(v) == [] then Failure(EmptyNameMessage) else Success(Strip(v))
  }

  /** An accepted name is the input minus whitespace on either side. */
  lemma ValidatedIsTrimmed(v: string)
    requires ValidateCompanyName(v).Success?
    ensures exists lo, hi ::
      (&& 0 <= lo <= hi <= |v|
       && ValidateCompanyName(v).value == v[lo..hi]
       && (forall i :: 0 <= i < lo ==> IsSpace(v[i]))
       && (forall i :: hi <= i < |v| ==> IsSpace(v[i])))
  {
    StripSlice(v);
    var lo := StripStart(v);
    var hi := lo + |Strip(v)|;
    assert ValidateCompanyName(v).value == v[lo..hi];
  }

  /** Validating an accepted name again accepts it unchanged. */
  lemma ValidateIdempotent(v: string)
    requires ValidateCompanyName(v).Success?
    ensures ValidateCompanyName(ValidateCompanyName(v).value) == ValidateCompanyName(v)
  {
    var w := ValidateCompanyName(v).value;
    StripNoOp(w);
  }

  /** `SupplierExtractionRequest(company_name=..., max_results=...)`. */
  function NewRequest(companyName: string, maxResults: int := DefaultMaxResults)
    : (r: Result<ExtractionRequest, string>)
    ensures r.Success? <==> ValidateCompanyName(companyName).Success?
    ensures r.Success? ==>
      r.value.companyName == ValidateCompanyName(companyName).value && r.value.maxResults == maxResults
  {
    match ValidateCompanyName(companyName)
    case Success(name) => Success(ExtractionRequest(name, maxResults))
    case Failure(e) => Failure(e)
  }

  /** The request defaults: ten results, and the empty name refused. */
  lemma RequestDefaults()
    ensures NewRequest("Tesco") == Success(ExtractionRequest("Tesco", 10))
    ensures NewRequest("").Failure?
  {
    assert Strip("Tesco") == "Tesco" by {
      StripNoOp("Tesco");
    }
  }

  /** The confidence bound of a supplier: between 0.0 and 1.0, both included. */
  predicate ConfidenceInRange(confidence: real) {
    0.0 <= confidence <= 1.0
  }

  /** `Supplier(name=..., confidence=..., source_url=..., context=...)`; the source and the
      context are absent unless given. */
  function NewSupplier(name: string, confidence: real,
                       sourceUrl: Option<string> := None, context: Option<string> := None)
    : (r: Result<Merging.Supplier, string>)
    ensures r.Success? <==> 0.0 <= confidence && confidence <= 1.0
    ensures r.Success? ==> r.value == Merging.Supplier(name, Some(confidence), sourceUrl, context)
  {
    if ConfidenceInRange(confidence) then Success(Merging.Supplier(name, Some(confidence), sourceUrl, context))
    else Failure("confidence must be between 0.0 and 1.0")
  }

  /** The supplier cases: the optional fields default to absent, and confidences 1.5 and
      -0.1 are refused. */
  lemma SupplierDefaults()
    ensures NewSupplier("ABC Corp", 0.85) == Success(Merging.Supplier("ABC Corp", Some(0.85), None, None))
    ensures NewSupplier("ABC Corp", 1.5).Failure?
    ensures NewSupplier("ABC Corp", -0.1).Failure?
  {
  }
}
