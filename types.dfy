/** The record shapes the form controller works on. */
module Types {
  import opened Wrappers
  import SolutionsData

  /** The five text fields of the customer form. */
  datatype CustomerFormData = CustomerFormData(
    industry: string,
    website: string,
    companyName: string,
    companyId: string,
    rawData: string)

  /** The `name` attribute of a form control: which field an edit is for. */
  datatype FormField = Industry | Website | CompanyName | CompanyId | RawData

  /** `data[field]` */
  function FieldValue(d: CustomerFormData, f: FormField): string {
    match f
    case Industry => d.industry
    case Website => d.website
    case CompanyName => d.companyName
    case CompanyId => d.companyId
    case RawData => d.rawData
  }

  /** `{ ...d, [field]: value }`: that field replaced, every other kept. */
  function WithField(d: CustomerFormData, f: FormField, value: string): (r: CustomerFormData)
    ensures FieldValue(r, f) == value
    ensures forall g :: g != f ==> FieldValue(r, g) == FieldValue(d, g)
  {
    match f
    case Industry => d.(industry := value)
    case Website => d.(website := value)
    case CompanyName => d.(companyName := value)
    case CompanyId => d.(companyId := value)
    case RawData => d.(rawData := value)
  }

  /** Two forms that agree on every field are the same form. */
  lemma FormExtensionality(a: CustomerFormData, b: CustomerFormData)
    requires forall f :: FieldValue(a, f) == FieldValue(b, f)
    ensures a == b
  {
    assert FieldValue(a, Industry) == FieldValue(b, Industry);
    assert FieldValue(a, Website) == FieldValue(b, Website);
    assert FieldValue(a, CompanyName) == FieldValue(b, CompanyName);
    assert FieldValue(a, CompanyId) == FieldValue(b, CompanyId);
    assert FieldValue(a, RawData) == FieldValue(b, RawData);
  }

  datatype Solution = Solution(title: string, description: string)

  datatype SalesStrategy = SalesStrategy(positioning: string, messages: seq<string>, nextSteps: seq<string>)

  /** A catalog solution with the optional match metadata of the recommendation call. */
  datatype RecommendedSystexSolution = RecommendedSystexSolution(
    solution: SolutionsData.SystexSolution,
    reason: Option<string>,
    matchedPainPoints: Option<seq<string>>)

  datatype AnalysisReport = AnalysisReport(
    summary: string,
    industryTrends: seq<string>,
    painPoints: seq<string>,
    solutions: seq<Solution>,
    salesStrategy: SalesStrategy,
    recommendedSolutions: Option<seq<RecommendedSystexSolution>>)
}
