/**
 * The state logic of app/submit-case/page.tsx: toggling a loss type in the form and the
 * guard steps of submitting it. Rendering and the browser are not modelled.
 */
module SubmitCase {
  import opened Wrappers
  import opened Json
  import opened Arrays
  import CasesRoute

  /** The form state; every text input starts empty and `lossTypes` starts as []. */
  datatype Form = Form(
    companyName: string, domain: string, incidentDate: string, description: string,
    lossTypes: seq<string>, monetaryLoss: string,
    contactName: string, contactEmail: string, contactPhone: string)

  const EmptyForm := Form("", "", "", "", [], "", "", "", "")
  const NoLossTypeMessage := "Please select at least one loss type"
  const LoginPath := "/login"

  /** `t => t !== type` */
  function Differs(t: string): string -> bool
  {
    x => x != t
  }

  /**
   * The `lossTypes` update of `handleLossTypeChange`: a selected type is removed
   * (every occurrence of it), an unselected one is appended.
   */
  function ToggleLossType(types: seq<string>, t: string): (r: seq<string>)
    ensures t !in types ==> r == types + [t]
    ensures t in types ==> t !in r
  {
    if t in types then Filter(types, Differs(t)) else types + [t]
  }

  /** Removing a type keeps every other type, as often as before and in the same order. */
  lemma ToggleKeepsOthers(types: seq<string>, t: string, x: string)
    requires t in types && x != t
    ensures multiset(ToggleLossType(types, t))[x] == multiset(types)[x]
    ensures ToggleLossType(types, t) == Filter(types, Differs(t))
  {
    FilterMultiset(types, Differs(t), x);
  }

  /** Selecting an unselected type and then deselecting it restores the list. */
  lemma ToggleTwiceRestores(types: seq<string>, t: string)
    requires t !in types
    ensures ToggleLossType(ToggleLossType(types, t), t) == types
  {
    FilterConcat(types, [t], Differs(t));
    FilterKeepsAll(types, Differs(t));
    assert Filter([t], Differs(t)) == [];
  }

  /** The form change of `handleLossTypeChange`: only `lossTypes` differs. */
  function ToggleInForm(form: Form, t: string): (f: Form)
    ensures f.lossTypes == ToggleLossType(form.lossTypes, t)
    ensures f.(lossTypes := form.lossTypes) == form
  {
    form.(lossTypes := ToggleLossType(form.lossTypes, t))
  }

  /** The request `handleSubmit` sends: the bearer header and the form as its JSON body. */
  datatype Request = Request(authorization: string, form: Form)

  /** `JSON.stringify(formData)` as the record the cases handler receives. */
  function FormBody(f: Form): (r: Record)
    ensures Get(r, "lossTypes") == Some(Arr(Map(AsJson, f.lossTypes)))
    ensures Get(r, "companyName") == Some(Str(f.companyName))
  {
    map["companyName" := Str(f.companyName), "domain" := Str(f.domain),
        "incidentDate" := Str(f.incidentDate), "description" := Str(f.description),
        "lossTypes" := Arr(Map(AsJson, f.lossTypes)), "monetaryLoss" := Str(f.monetaryLoss),
        "contactName" := Str(f.contactName), "contactEmail" := Str(f.contactEmail),
        "contactPhone" := Str(f.contactPhone)]
  }

  function AsJson(s: string): Value
  {
    Str(s)
  }

  /**
   * A form the page lets through has a loss type, so the handler's loss-type check
   * passes; it is rejected exactly when a text field it requires is empty.
   */
  lemma SubmittedFormMeetsLossTypeCheck(f: Form)
    requires f.lossTypes != []
    ensures CasesRoute.HasLossTypes(FormBody(f))
    ensures CasesRoute.ValidateCase(FormBody(f)).None? <==>
      && f.companyName != "" && f.domain != "" && f.incidentDate != "" && f.description != ""
      && f.contactName != "" && f.contactEmail != "" && f.contactPhone != ""
  {
    var body := FormBody(f);
    assert body["lossTypes"] == Arr(Map(AsJson, f.lossTypes));
  }

  /** The page's state that the guard steps change. */
  class SubmitCasePage {
    var form: Form
    var error: string
    var loading: bool
    /** Where the router was sent, if anywhere. */
    var redirect: Option<string>

    constructor ()
      ensures form == EmptyForm && error == "" && !loading && redirect == None
    {
      form := EmptyForm;
      error := "";
      loading := false;
      redirect := None;
    }

    /** `handleLossTypeChange` */
    method HandleLossTypeChange(t: string)
      modifies this
      ensures form == ToggleInForm(old(form), t)
      ensures error == old(error) && loading == old(loading) && redirect == old(redirect)
    {
      form := ToggleInForm(form, t);
    }

    /**
     * The guard steps of `handleSubmit`. `token` is the stored token (None when there is
     * none). The error is cleared first; without a token the page goes to /login, and
     * without a loss type it shows an error. Otherwise it starts loading and returns
     * the request it sends.
     */
    method HandleSubmit(token: Option<string>) returns (sent: Option<Request>)
      modifies this
      ensures form == old(form)
      ensures token.None? || token.value == "" ==>
        && redirect == Some(LoginPath) && sent.None? && error == "" && loading == old(loading)
      ensures token.Some? && token.value != "" && form.lossTypes == [] ==>
        && error == NoLossTypeMessage && sent.None? && redirect == old(redirect) && loading == old(loading)
      ensures token.Some? && token.value != "" && form.lossTypes != [] ==>
        && loading && error == "" && redirect == old(redirect)
        && sent == Some(Request("Bearer " + token.value, form))
    {
      error := "";
      if token.None? || token.value == "" {
        redirect := Some(LoginPath);
        return None;
      }
      if |form.lossTypes| == 0 {
        error := NoLossTypeMessage;
        return None;
      }
      loading := true;
      sent := Some(Request("Bearer " + token.value, form));
    }
  }
}
