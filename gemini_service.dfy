/** The client side of the analysis service, as the form controller sees it:
    the enrichment step and the outcome of the report-generation call. */
module GeminiService {
  import opened Wrappers
  import opened Types

  /** `Partial<CustomerFormData>`: any field may be absent. */
  datatype PartialFormData = PartialFormData(
    industry: Option<string>,
    website: Option<string>,
    companyName: Option<string>,
    companyId: Option<string>,
    rawData: Option<string>)

  function PartialValue(p: PartialFormData, f: FormField): Option<string> {
    match f
    case Industry => p.industry
    case Website => p.website
    case CompanyName => p.companyName
    case CompanyId => p.companyId
    case RawData => p.rawData
  }

  /** `enrichCompanyDataIfNeeded` as shipped: it hands its argument back, so
      every field is present with the value it already had. */
  function EnrichCompanyDataIfNeeded(d: CustomerFormData): (p: PartialFormData)
    ensures forall f :: PartialValue(p, f) == Some(FieldValue(d, f))
  {
    PartialFormData(Some(d.industry), Some(d.website), Some(d.companyName), Some(d.companyId), Some(d.rawData))
  }

  /** `{ ...base, ...p }`: a field present in p wins, an absent one keeps base's value. */
  function Spread(base: CustomerFormData, p: PartialFormData): (r: CustomerFormData)
    ensures forall f :: FieldValue(r, f) == if PartialValue(p, f).Some? then PartialValue(p, f).value else FieldValue(base, f)
  {
    CustomerFormData(
      if p.industry.Some? then p.industry.value else base.industry,
      if p.website.Some? then p.website.value else base.website,
      if p.companyName.Some? then p.companyName.value else base.companyName,
      if p.companyId.Some? then p.companyId.value else base.companyId,
      if p.rawData.Some? then p.rawData.value else base.rawData)
  }

  /** Merging the shipped enrichment into the form leaves the form as it was. */
  lemma EnrichmentIsIdentity(d: CustomerFormData)
    ensures Spread(d, EnrichCompanyDataIfNeeded(d)) == d
  {
    var r := Spread(d, EnrichCompanyDataIfNeeded(d));
    forall f ensures FieldValue(r, f) == FieldValue(d, f) {
      assert PartialValue(EnrichCompanyDataIfNeeded(d), f) == Some(FieldValue(d, f));
    }
    FormExtensionality(r, d);
  }

  /** How the awaited `generateAnalysis(data)` call ends: with a report
      object, with a falsy value, or by throwing an error whose message
      may be empty. */
  datatype GenerationOutcome =
    | Returned(report: AnalysisReport)
    | ReturnedFalsy
    | Threw(message: string)
}
