/** The form controller of the application component: the company catalog,
    the autocomplete matcher, keyboard navigation of the suggestion list,
    and submission (validation, enrichment, report generation). */
module App {
  import opened Wrappers
  import opened Sequences
  import opened JsString
  import opened Types
  import GeminiService

  // ---------------------------------------------------------------------
  // Reference data

  /** The options of the industry drop-down. */
  const Industries: seq<string> := [
    "資訊服務與軟體",
    "半導體 / 電子製造",
    "金融與保險",
    "製造業",
    "零售與電商",
    "電信與媒體",
    "醫療與生技",
    "政府與公共服務",
    "運輸與物流",
    "能源與公用事業",
    "其他"
  ]

  datatype CompanyProfile = CompanyProfile(
    name: string,
    keywordTokens: seq<string>,
    companyId: string,
    website: string,
    industry: string,
    description: string)

  const Tsmc := CompanyProfile(
    "台灣積體電路製造股份有限公司（TSMC）",
    ["台積", "台積電", "TSMC", "2330"],
    "22099131",
    "https://www.tsmc.com",
    "半導體 / 電子製造",
    "台積電 (TSMC) 是全球領先的積體電路製造服務公司，成立於 1987 年。")

  const Google := CompanyProfile(
    "Google LLC（Google）",
    ["Goog", "Google", "谷歌", "Alphabet"],
    "NA",
    "https://www.google.com",
    "資訊服務與軟體",
    "Google LLC 是一家專注於網際網路相關服務與產品的美國跨國科技公司。")

  const MediaTek := CompanyProfile(
    "聯發科技股份有限公司（MediaTek）",
    ["聯發科", "MediaTek", "MTK", "2454"],
    "24540000",
    "https://www.mediatek.com",
    "半導體 / 電子製造",
    "聯發科技是全球第四大無晶圓廠半導體公司。")

  /** `COMPANY_DB`, the static catalog the matcher searches. */
  const CompanyDb: seq<CompanyProfile> := [Tsmc, Google, MediaTek]

  /** `INITIAL_DATA`: every field empty. */
  const InitialData := CustomerFormData("", "", "", "", "")

  const NameRequiredMessage := "請先輸入公司名稱"
  const IndustryRequiredMessage := "請選擇產業領域"
  const EmptyResultMessage := "分析結果為空，請重試"
  const GenericFailureMessage := "分析生成失敗，請稍後再試。"

  /** The shortest query, in UTF-16 code units, that runs the matcher. */
  const MinQueryLength := 2

  // ---------------------------------------------------------------------
  // Field edits

  /** The updater handleInputChange passes to setFormData: the edited field
      takes the new value; an edit of the company name also empties the
      other four fields, so that no data of a previous company stays. */
  function EditForm(prev: CustomerFormData, name: FormField, value: string): (next: CustomerFormData)
    ensures FieldValue(next, name) == value
    ensures forall f :: f != name ==> FieldValue(next, f) == if name == CompanyName then "" else FieldValue(prev, f)
  {
    var d := WithField(prev, name, value);
    if name == CompanyName then d.(website := "", companyId := "", rawData := "", industry := "") else d
  }

  /** The form a catalog selection writes: every field from the entry, the
      description going into the raw-data field. */
  function FormFromCompany(c: CompanyProfile): (d: CustomerFormData)
    ensures FieldValue(d, CompanyName) == c.name && FieldValue(d, CompanyId) == c.companyId
    ensures FieldValue(d, Website) == c.website && FieldValue(d, Industry) == c.industry
    ensures FieldValue(d, RawData) == c.description
    ensures ValidationError(d).None? <==> !AllSpace(c.name) && c.industry != ""
  {
    CustomerFormData(
      industry := c.industry,
      website := c.website,
      companyName := c.name,
      companyId := c.companyId,
      rawData := c.description)
  }

  // ---------------------------------------------------------------------
  // The autocomplete matcher

  /** A case-insensitive substring match of the query against the entry's
      name or any of its keyword tokens. */
  predicate MatchesQuery(c: CompanyProfile, value: string) {
    var q := ToLowerCase(value);
    Includes(ToLowerCase(c.name), q)
    || exists k :: 0 <= k < |c.keywordTokens| && Includes(ToLowerCase(c.keywordTokens[k]), q)
  }

  /** The matcher holds exactly when the lowered query occurs at some
      position of the lowered name or of some lowered keyword token. */
  lemma MatchesQueryOccurs(c: CompanyProfile, value: string)
    ensures MatchesQuery(c, value) <==>
              (exists i :: OccursAt(ToLowerCase(c.name), ToLowerCase(value), i))
              || (exists k, i :: 0 <= k < |c.keywordTokens| && OccursAt(ToLowerCase(c.keywordTokens[k]), ToLowerCase(value), i))
  {
    var q := ToLowerCase(value);
    IncludesIff(ToLowerCase(c.name), q);
    forall k | 0 <= k < |c.keywordTokens|
      ensures Includes(ToLowerCase(c.keywordTokens[k]), q) <==> exists i :: OccursAt(ToLowerCase(c.keywordTokens[k]), q, i)
    {
      IncludesIff(ToLowerCase(c.keywordTokens[k]), q);
    }
  }

  /** `db.filter(c => matches)`: exactly the matching entries, each as often
      as in db, in db's order. */
  function FilterCompanies(db: seq<CompanyProfile>, value: string): (matched: seq<CompanyProfile>)
    ensures forall c :: multiset(matched)[c] == if MatchesQuery(c, value) then multiset(db)[c] else 0
    ensures forall c :: c in matched <==> c in db && MatchesQuery(c, value)
    ensures IsSubsequence(matched, db)
  {
    if db == [] then []
    else
      var rest := FilterCompanies(db[1..], value);
      assert db == [db[0]] + db[1..];
      if MatchesQuery(db[0], value) then [db[0]] + rest else rest
  }

  /** The suggestion list for a typed company name: the catalog filtered by
      the query once it has two or more UTF-16 code units, nothing before. */
  function Suggestions(value: string): (r: seq<CompanyProfile>)
    ensures Utf16Length(value) < MinQueryLength ==> r == []
    ensures Utf16Length(value) >= MinQueryLength ==>
              forall c :: c in r <==> c in CompanyDb && MatchesQuery(c, value)
    ensures IsSubsequence(r, CompanyDb)
  {
    if Utf16Length(value) >= MinQueryLength then FilterCompanies(CompanyDb, value) else []
  }

  /** Matching ignores ASCII case: two queries that lower to the same string
      match the same entries. */
  lemma MatchIgnoresCase(c: CompanyProfile, v1: string, v2: string)
    requires ToLowerCase(v1) == ToLowerCase(v2)
    ensures MatchesQuery(c, v1) == MatchesQuery(c, v2)
  {
  }

  // ---------------------------------------------------------------------
  // Keyboard navigation

  /** JavaScript's `a % n`: the remainder truncated toward zero, whose sign
      follows the dividend. */
  function TruncRem(a: int, n: int): (r: int)
    requires n > 0
    ensures a >= 0 ==> r == a % n
    ensures a < 0 ==> -n < r <= 0
    ensures a < 0 ==> r == if a % n == 0 then 0 else a % n - n
  {
    if a >= 0 then a % n
    else
      var m := (-a) % n;
      var q := (-a) / n;
      assert -a == q * n + m;
      if m == 0 then
        ModOfMultiple(a, n, q);
        -m
      else
        assert a == (-q - 1) * n + (n - m);
        ModUnique(a, n, -q - 1, n - m);
        -m
  }

  /** The Euclidean remainder is the one r in [0, n) with a == q * n + r. */
  lemma ModUnique(a: int, n: int, q: int, r: int)
    requires n > 0 && 0 <= r < n && a == q * n + r
    ensures a % n == r
  {
    var q0, r0 := a / n, a % n;
    var d := q - q0;
    assert d * n == r0 - r by {
      assert a == q0 * n + r0;
      assert q * n - q0 * n == d * n;
    }
    if d != 0 {
      MultipleIsFar(d, n);
    }
  }

  /** A non-zero multiple of n is at least n away from 0. */
  lemma MultipleIsFar(d: int, n: int)
    requires n > 0 && d != 0
    ensures d * n >= n || d * n <= -n
  {
    if d > 0 {
      assert d * n == (d - 1) * n + n;
      assert (d - 1) * n >= 0;
    } else {
      assert d * n == -((-d - 1) * n) - n;
      assert (-d - 1) * n >= 0;
    }
  }

  lemma ModOfMultiple(a: int, n: int, q: int)
    requires n > 0 && a == -(q * n)
    ensures a % n == 0
  {
    assert a == (-q) * n + 0;
    ModUnique(a, n, -q, 0);
  }

  /** No index is highlighted, or the highlighted one is a list position. */
  predicate IndexInRange(index: Option<int>, n: int) {
    index.None? || 0 <= index.value < n
  }

  /** The index after ArrowDown on a list of n suggestions: the first entry
      when none is highlighted, else the next one, wrapping to the first. */
  function ArrowDownIndex(prev: Option<int>, n: int): (r: int)
    requires n > 0
    ensures IndexInRange(prev, n) ==> 0 <= r < n
    ensures prev.None? ==> r == 0
    ensures prev.Some? && 0 <= prev.value < n ==> r == if prev.value == n - 1 then 0 else prev.value + 1
  {
    match prev
    case None => 0
    case Some(i) =>
      if 0 <= i < n then
        ModUnique(i + 1, n, if i == n - 1 then 1 else 0, if i == n - 1 then 0 else i + 1);
        TruncRem(i + 1, n)
      else TruncRem(i + 1, n)
  }

  /** The index after ArrowUp: the last entry when none is highlighted, else
      the previous one, wrapping to the last. */
  function ArrowUpIndex(prev: Option<int>, n: int): (r: int)
    requires n > 0
    ensures IndexInRange(prev, n) ==> 0 <= r < n
    ensures prev.None? ==> r == n - 1
    ensures prev.Some? && 0 <= prev.value < n ==> r == if prev.value == 0 then n - 1 else prev.value - 1
  {
    match prev
    case None => n - 1
    case Some(i) =>
      if 0 <= i < n then
        ModUnique(i - 1 + n, n, if i == 0 then 0 else 1, if i == 0 then n - 1 else i - 1);
        TruncRem(i - 1 + n, n)
      else TruncRem(i - 1 + n, n)
  }

  /** ArrowUp undoes ArrowDown and ArrowDown undoes ArrowUp. */
  lemma ArrowKeysInverse(i: int, n: int)
    requires 0 <= i < n
    ensures ArrowUpIndex(Some(ArrowDownIndex(Some(i), n)), n) == i
    ensures ArrowDownIndex(Some(ArrowUpIndex(Some(i), n)), n) == i
  {
  }

  /** The highlighted index after k presses of ArrowDown from index i. */
  function PressDown(i: int, n: int, k: nat): int
    requires n > 0
  {
    if k == 0 then i else ArrowDownIndex(Some(PressDown(i, n, k - 1)), n)
  }

  /** Pressing a + b times is pressing a times, then b times. */
  lemma {:induction false} PressDownAdd(i: int, n: int, a: nat, b: nat)
    requires n > 0
    ensures PressDown(i, n, a + b) == PressDown(PressDown(i, n, a), n, b)
  {
    if b > 0 {
      PressDownAdd(i, n, a, b - 1);
    }
  }

  /** Before the end of the list each press moves one place down. */
  lemma {:induction false} PressDownNoWrap(i: int, n: int, k: nat)
    requires 0 <= i && i + k < n
    ensures PressDown(i, n, k) == i + k
  {
    if k > 0 {
      PressDownNoWrap(i, n, k - 1);
    }
  }

  /** A full round of n presses returns to the starting entry. */
  lemma PressDownFullRound(i: int, n: int)
    requires 0 <= i < n
    ensures PressDown(i, n, n) == i
  {
    PressDownNoWrap(i, n, n - 1 - i);
    assert PressDown(i, n, n - i) == 0;
    PressDownAdd(i, n, n - i, i);
    PressDownNoWrap(0, n, i);
  }

  /** Keys the suggestion list reacts to; any other key is `Other`. */
  datatype Key = ArrowDown | ArrowUp | Enter | Escape | Other

  // ---------------------------------------------------------------------
  // Submission

  /** The first validation failure of a submission, if any: a blank company
      name before a missing industry. */
  function ValidationError(d: CustomerFormData): (r: Option<string>)
    ensures AllSpace(d.companyName) ==> r == Some(NameRequiredMessage)
    ensures !AllSpace(d.companyName) && d.industry == "" ==> r == Some(IndustryRequiredMessage)
    ensures r.None? <==> !AllSpace(d.companyName) && d.industry != ""
  {
    if Trim(d.companyName) == "" then Some(NameRequiredMessage)
    else if d.industry == "" then Some(IndustryRequiredMessage)
    else None
  }

  /** `err.message || "分析生成失敗，請稍後再試。"` */
  function FailureMessage(message: string): (r: string)
    ensures r != ""
    ensures message != "" ==> r == message
    ensures message == "" ==> r == GenericFailureMessage
  {
    if message == "" then GenericFailureMessage else message
  }

  /** The error shown once generation has ended: none after a report; the
      "empty result" message after a falsy result (it is thrown as an Error
      with that message); the thrown message, or the generic one when it is
      empty, after a failure. */
  function ErrorAfterGeneration(outcome: GeminiService.GenerationOutcome): (r: Option<string>)
    ensures r.None? <==> outcome.Returned?
    ensures r.Some? ==> r.value != ""
    ensures outcome.ReturnedFalsy? ==> r == Some(EmptyResultMessage)
    ensures outcome.Threw? && outcome.message != "" ==> r == Some(outcome.message)
    ensures outcome.Threw? && outcome.message == "" ==> r == Some(GenericFailureMessage)
  {
    match outcome
    case Returned(_) => None
    case ReturnedFalsy => Some(FailureMessage(EmptyResultMessage))
    case Threw(message) => Some(FailureMessage(message))
  }

  // ---------------------------------------------------------------------
  // Properties of the reference data and of edits followed by submission

  /** The TSMC entry fills the form with its registration number, website,
      industry and description. */
  lemma TsmcSelection()
    ensures var d := FormFromCompany(CompanyDb[0]);
            && d.companyName == "台灣積體電路製造股份有限公司（TSMC）"
            && d.companyId == "22099131"
            && d.website == "https://www.tsmc.com"
            && d.industry == "半導體 / 電子製造"
            && d.rawData == CompanyDb[0].description
  {
  }

  /** Every catalog entry's industry is one of the drop-down's options, and
      a form filled from any entry passes validation. */
  lemma CatalogSelectionIsValid(c: CompanyProfile)
    requires c in CompanyDb
    ensures c.industry in Industries
    ensures ValidationError(FormFromCompany(c)).None?
  {
    assert !IsSpace(c.name[0]);
    assert !AllSpace(c.name);
  }

  /** After the company name is edited, submission is refused until an
      industry is chosen again: a blank name is reported first, any other
      name is reported as lacking an industry. */
  lemma NameEditForcesIndustryChoice(d: CustomerFormData, value: string)
    ensures ValidationError(EditForm(d, CompanyName, value)) ==
            if AllSpace(value) then Some(NameRequiredMessage) else Some(IndustryRequiredMessage)
  {
    var e := EditForm(d, CompanyName, value);
    assert FieldValue(e, CompanyName) == value;
    assert FieldValue(e, Industry) == "";
  }

  /** A character that is not a lower-case ASCII letter appears in the
      lowered text only where it appeared in the text. */
  lemma LoweringKeepsAbsent(c: char, text: string)
    requires !('a' <= c <= 'z') && c !in text
    ensures c !in ToLowerCase(text)
  {
    var l := ToLowerCase(text);
    forall i | 0 <= i < |l| ensures l[i] != c {
      assert l[i] == LowerChar(text[i]);
    }
  }

  /** Typing "台積" suggests the TSMC entry only. */
  lemma SuggestionsForTaiJi()
    ensures Suggestions("台積") == [Tsmc]
  {
    var q := "台積";
    var lq := ToLowerCase(q);
    assert lq[0] == '台';
    assert Includes(ToLowerCase(Tsmc.keywordTokens[0]), lq) by {
      var token := ToLowerCase(Tsmc.keywordTokens[0]);
      assert token == lq;
      assert lq <= token[0..];
    }
    assert MatchesQuery(Tsmc, q);
    GoogleLacksTai();
    NoMatchWithout('台', Google, q);
    MediaTekLacksTai();
    NoMatchWithout('台', MediaTek, q);
    assert FilterCompanies([MediaTek], q) == [];
    assert FilterCompanies([Google, MediaTek], q) == [];
    assert CompanyDb[1..] == [Google, MediaTek];
  }

  /** Neither the Google entry nor the MediaTek entry holds '台' in its
      name or its keywords. */
  lemma GoogleLacksTai()
    ensures '台' !in Google.name
    ensures forall k :: 0 <= k < |Google.keywordTokens| ==> '台' !in Google.keywordTokens[k]
  {
    var ks := Google.keywordTokens;
    assert '台' !in ks[0] && '台' !in ks[1];
    assert '台' !in ks[2] && '台' !in ks[3];
  }

  lemma MediaTekLacksTai()
    ensures '台' !in MediaTek.name
    ensures forall k :: 0 <= k < |MediaTek.keywordTokens| ==> '台' !in MediaTek.keywordTokens[k]
  {
    var ks := MediaTek.keywordTokens;
    assert '台' !in ks[0] && '台' !in ks[1];
    assert '台' !in ks[2] && '台' !in ks[3];
  }

  /** An entry whose name and keywords lack the query's first character
      (not a lower-case letter) does not match. */
  lemma NoMatchWithout(ch: char, c: CompanyProfile, value: string)
    requires |value| > 0 && value[0] == ch && !('A' <= ch <= 'Z') && !('a' <= ch <= 'z')
    requires ch !in c.name
    requires forall k :: 0 <= k < |c.keywordTokens| ==> ch !in c.keywordTokens[k]
    ensures !MatchesQuery(c, value)
  {
    var q := ToLowerCase(value);
    assert q[0] == ch;
    LoweringKeepsAbsent(ch, c.name);
    if Includes(ToLowerCase(c.name), q) {
      IncludesFirstChar(ToLowerCase(c.name), q);
    }
    forall k | 0 <= k < |c.keywordTokens|
      ensures !Includes(ToLowerCase(c.keywordTokens[k]), q)
    {
      LoweringKeepsAbsent(ch, c.keywordTokens[k]);
      if Includes(ToLowerCase(c.keywordTokens[k]), q) {
        IncludesFirstChar(ToLowerCase(c.keywordTokens[k]), q);
      }
    }
  }

  // ---------------------------------------------------------------------
  // The component state and its event handlers

  /** The component's state hooks, with one method per event handler. Each
      handler runs to completion before the next event; the awaited calls of
      a submission are folded into its single step. */
  class FormController {
    var formData: CustomerFormData
    var report: Option<AnalysisReport>
    var loading: bool
    var error: Option<string>
    var hasGeneratedReport: bool
    var suggestions: seq<CompanyProfile>
    var showSuggestions: bool
    var activeSuggestionIndex: Option<int>
    var selectedCompany: Option<CompanyProfile>

    /** Between events: the highlight is nothing or a list position, an open
        suggestion panel has entries, the report flag is set only with a
        report held, and no submission is in flight. */
    ghost predicate Valid()
      reads this
    {
      && IndexInRange(activeSuggestionIndex, |suggestions|)
      && (showSuggestions ==> suggestions != [])
      && (hasGeneratedReport ==> report.Some?)
      && !loading
    }

    /** The results section: rendered when the flag is set and a report is held. */
    function DisplayedReport(): Option<AnalysisReport>
      reads this
    {
      if hasGeneratedReport && report.Some? then report else None
    }

    /** The submission-related state is as before the event. */
    twostate predicate SubmissionStateUnchanged()
      reads this
    {
      report == old(report) && loading == old(loading) && error == old(error)
      && hasGeneratedReport == old(hasGeneratedReport)
    }

    /** The autocomplete state is as before the event. */
    twostate predicate AutocompleteUnchanged()
      reads this
    {
      suggestions == old(suggestions) && showSuggestions == old(showSuggestions)
      && activeSuggestionIndex == old(activeSuggestionIndex) && selectedCompany == old(selectedCompany)
    }

    /** The state a selection of c leaves: the form filled from c, c recorded
        as the selected company, the panel closed, no highlight, no error. */
    ghost predicate SelectedState(c: CompanyProfile)
      reads this
    {
      formData == FormFromCompany(c) && selectedCompany == Some(c)
      && !showSuggestions && activeSuggestionIndex == None && error == None
    }

    /** The initial state of every hook. */
    constructor ()
      ensures Valid()
      ensures formData == InitialData && report == None && !loading && error == None
      ensures !hasGeneratedReport && suggestions == [] && !showSuggestions
      ensures activeSuggestionIndex == None && selectedCompany == None
    {
      formData := InitialData;
      report := None;
      loading := false;
      error := None;
      hasGeneratedReport := false;
      suggestions := [];
      showSuggestions := false;
      activeSuggestionIndex := None;
      selectedCompany := None;
    }

    /** handleInputChange: an edit of one field. An edit of the company name
        also drops the selection and the highlight and reruns the matcher;
        the panel opens exactly when the matcher finds something. */
    method HandleInputChange(name: FormField, value: string)
      requires Valid()
      modifies this
      ensures Valid()
      ensures formData == EditForm(old(formData), name, value)
      ensures name == CompanyName ==>
                && selectedCompany == None && activeSuggestionIndex == None
                && suggestions == Suggestions(value) && (showSuggestions <==> suggestions != [])
      ensures name != CompanyName ==> AutocompleteUnchanged()
      ensures SubmissionStateUnchanged()
    {
      formData := EditForm(formData, name, value);
      if name == CompanyName {
        selectedCompany := None;
        activeSuggestionIndex := None;
        var matched := Suggestions(value);
        suggestions := matched;
        showSuggestions := |matched| > 0;
      }
    }

    /** handleSelectCompany: a click on a suggestion (or Enter on the
        highlighted one) overwrites the whole form from the entry. */
    method HandleSelectCompany(company: CompanyProfile)
      requires Valid()
      modifies this
      ensures Valid()
      ensures SelectedState(company)
      ensures suggestions == old(suggestions)
      ensures report == old(report) && loading == old(loading) && hasGeneratedReport == old(hasGeneratedReport)
    {
      formData := FormFromCompany(company);
      selectedCompany := Some(company);
      showSuggestions := false;
      activeSuggestionIndex := None;
      error := None;
    }

    /** The pointer entering a rendered suggestion highlights it. */
    method HandleSuggestionHover(index: int)
      requires Valid()
      requires showSuggestions && 0 <= index < |suggestions|
      modifies this
      ensures Valid()
      ensures activeSuggestionIndex == Some(index)
      ensures formData == old(formData) && SubmissionStateUnchanged()
      ensures suggestions == old(suggestions) && showSuggestions == old(showSuggestions)
      ensures selectedCompany == old(selectedCompany)
    {
      activeSuggestionIndex := Some(index);
    }

    /** handleKeyDown on the company-name input. With the panel closed or
        empty every key is ignored. The arrows move the highlight round the
        list, Enter selects the highlighted entry, Escape closes the panel.
        The result says whether the browser's default action (submitting
        the form, for Enter) is suppressed. */
    method HandleKeyDown(key: Key) returns (defaultPrevented: bool)
      requires Valid()
      modifies this
      ensures Valid()
      ensures !old(showSuggestions) || old(suggestions) == [] ==> unchanged(this) && !defaultPrevented
      ensures old(showSuggestions) && old(suggestions) != [] ==>
                match key
                case ArrowDown =>
                  && activeSuggestionIndex == Some(ArrowDownIndex(old(activeSuggestionIndex), |old(suggestions)|))
                  && defaultPrevented
                  && formData == old(formData) && SubmissionStateUnchanged()
                  && suggestions == old(suggestions) && showSuggestions && selectedCompany == old(selectedCompany)
                case ArrowUp =>
                  && activeSuggestionIndex == Some(ArrowUpIndex(old(activeSuggestionIndex), |old(suggestions)|))
                  && defaultPrevented
                  && formData == old(formData) && SubmissionStateUnchanged()
                  && suggestions == old(suggestions) && showSuggestions && selectedCompany == old(selectedCompany)
                case Enter =>
                  if old(activeSuggestionIndex).Some? then
                    && SelectedState(old(suggestions)[old(activeSuggestionIndex).value])
                    && defaultPrevented
                    && suggestions == old(suggestions)
                    && report == old(report) && loading == old(loading)
                    && hasGeneratedReport == old(hasGeneratedReport)
                  else
                    unchanged(this) && !defaultPrevented
                case Escape =>
                  && !showSuggestions && activeSuggestionIndex == None && !defaultPrevented
                  && formData == old(formData) && SubmissionStateUnchanged()
                  && suggestions == old(suggestions) && selectedCompany == old(selectedCompany)
                case Other =>
                  unchanged(this) && !defaultPrevented
    {
      defaultPrevented := false;
      if !showSuggestions || |suggestions| == 0 {
        return;
      }
      match key
      case ArrowDown =>
        defaultPrevented := true;
        activeSuggestionIndex := Some(ArrowDownIndex(activeSuggestionIndex, |suggestions|));
      case ArrowUp =>
        defaultPrevented := true;
        activeSuggestionIndex := Some(ArrowUpIndex(activeSuggestionIndex, |suggestions|));
      case Enter =>
        if activeSuggestionIndex.Some? {
          defaultPrevented := true;
          HandleSelectCompany(suggestions[activeSuggestionIndex.value]);
        }
      case Escape =>
        showSuggestions := false;
        activeSuggestionIndex := None;
      case Other =>
    }

    /** handleSubmit, with the awaited generation call's outcome given. A
        form that fails validation only gets its error message. Otherwise the
        form is enriched (which leaves it as it is), sent to generation
        exactly as it stood, and the outcome decides: a report is stored and
        shown, anything else hides the results and sets a non-empty error. */
    method HandleSubmit(outcome: GeminiService.GenerationOutcome) returns (request: Option<CustomerFormData>)
      requires Valid()
      modifies this
      ensures Valid()
      ensures formData == old(formData) && AutocompleteUnchanged()
      ensures ValidationError(old(formData)).Some? ==>
                && request == None && error == ValidationError(old(formData))
                && report == old(report) && loading == old(loading)
                && hasGeneratedReport == old(hasGeneratedReport)
      ensures ValidationError(old(formData)).None? ==>
                && request == Some(old(formData))
                && error == ErrorAfterGeneration(outcome)
                && hasGeneratedReport == outcome.Returned?
                && report == (if outcome.Returned? then Some(outcome.report) else old(report))
                && DisplayedReport() == (if outcome.Returned? then Some(outcome.report) else None)
                && !loading
    {
      var validation := ValidationError(formData);
      if validation.Some? {
        error := validation;
        return None;
      }
      loading := true;
      error := None;
      hasGeneratedReport := false;

      var dataToAnalyze := formData;
      var enriched := GeminiService.EnrichCompanyDataIfNeeded(dataToAnalyze);
      GeminiService.EnrichmentIsIdentity(dataToAnalyze);
      dataToAnalyze := GeminiService.Spread(dataToAnalyze, enriched);
      formData := dataToAnalyze;

      request := Some(dataToAnalyze);
      match outcome {
        case Returned(r) =>
          report := Some(r);
          hasGeneratedReport := true;
        case ReturnedFalsy =>
          error := Some(FailureMessage(EmptyResultMessage));
          hasGeneratedReport := false;
        case Threw(message) =>
          error := Some(FailureMessage(message));
          hasGeneratedReport := false;
      }
      loading := false;
    }
  }

  /** Typing "台積", pressing ArrowDown and Enter, then submitting sends the
      TSMC entry's data to generation and shows the report it returns. */
  method TsmcWalkthrough(generated: AnalysisReport)
    returns (request: Option<CustomerFormData>, shown: Option<AnalysisReport>)
    ensures request == Some(FormFromCompany(Tsmc))
    ensures shown == Some(generated)
  {
    var app := new FormController();
    app.HandleInputChange(CompanyName, "台積");
    SuggestionsForTaiJi();
    assert app.showSuggestions && app.suggestions == [Tsmc];
    var prevented := app.HandleKeyDown(ArrowDown);
    assert app.activeSuggestionIndex == Some(0);
    prevented := app.HandleKeyDown(Enter);
    assert app.formData == FormFromCompany(Tsmc);
    CatalogSelectionIsValid(Tsmc);
    request := app.HandleSubmit(GeminiService.Returned(generated));
    shown := app.DisplayedReport();
  }
}
