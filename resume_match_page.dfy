/** The resume-matching page of the web client (frontend/src/pages/ResumeMatchPage.jsx): the form
    state, the submit handler that posts the resume and job text to the scoring service, and the
    rules that decide what the page shows. */
module ResumeMatch {
  import opened Wrappers

  /** The file chosen in the picker; the page hands it on without looking inside. */
  datatype FileHandle = FileHandle(name: string)

  /** The JSON body of a successful response. The page does not check its shape, so each field
      the page reads may be absent. */
  datatype ResponseData = ResponseData(
    matchScoreOverlap: Option<real>,
    matchScoreModel: Option<real>,
    missingSkills: Option<seq<string>>)

  /** One named part of the multipart `FormData` body. */
  datatype FormPart = FilePart(name: string, file: FileHandle) | TextPart(name: string, text: string)

  /** What a press of the submit control does to the outside world. */
  datatype Effect =
    | Alert(message: string)                       // the validation gate blocks the submission
    | Post(url: string, form: seq<FormPart>)       // the request to the scoring service

  /** How the awaited `axios.post` settles: resolved with the response body, or rejected
      (network error, non-2xx status). */
  datatype Outcome = Resolved(data: ResponseData) | Rejected

  const UploadUrl: string := "http://localhost:8000/upload-resume"
  const GateMessage: string := "Please upload a resume and paste job description"
  const FailureMessage: string := "Failed to analyze resume. Please try again."
  const AnalyzingLabel: string := "\U{23F3} Analyzing..."
  const IdleLabel: string := "\U{26A1} Match Skills"
  const NoneText: string := "None"

  /** The validation gate `!resumeFile || !jobText`, negated: a file is chosen and the job text
      is not the empty string. White space counts as text. */
  predicate CanSubmit(resumeFile: Option<FileHandle>, jobText: string)
  {
    resumeFile.Some? && jobText != ""
  }

  /** The body `handleSubmit` builds: the file under `resume_file`, the text under `job_text`. */
  function FormFor(file: FileHandle, jobText: string): seq<FormPart>
  {
    [FilePart("resume_file", file), TextPart("job_text", jobText)]
  }

  /** The component's five pieces of state. */
  class ResumeMatchPage {
    var resumeFile: Option<FileHandle>
    var jobText: string
    var result: Option<ResponseData>
    var loading: bool
    var error: string

    /** The initial values of the five `useState` hooks. */
    constructor ()
      ensures resumeFile == None && jobText == "" && result == None
      ensures !loading && error == ""
    {
      resumeFile := None;
      jobText := "";
      result := None;
      loading := false;
      error := "";
    }

    /** The file input's `onChange`: `files[0]`, which is absent when the picker is cancelled. */
    method SelectResume(file: Option<FileHandle>)
      modifies this
      ensures resumeFile == file
      ensures jobText == old(jobText) && result == old(result)
      ensures loading == old(loading) && error == old(error)
    {
      resumeFile := file;
    }

    /** The text area's `onChange`: the text is taken verbatim. */
    method EditJobText(text: string)
      modifies this
      ensures jobText == text
      ensures resumeFile == old(resumeFile) && result == old(result)
      ensures loading == old(loading) && error == old(error)
    {
      jobText := text;
    }

    /** `handleSubmit` up to its `await`: the gate, then the loading flag and the cleared error,
        then the request. */
    method BeginSubmit() returns (effect: Effect)
      modifies this
      ensures !CanSubmit(old(resumeFile), old(jobText)) ==> effect == Alert(GateMessage) && unchanged(this)
      ensures CanSubmit(old(resumeFile), old(jobText)) ==>
        && effect == Post(UploadUrl, FormFor(old(resumeFile).value, old(jobText)))
        && loading && error == ""
      ensures resumeFile == old(resumeFile) && jobText == old(jobText) && result == old(result)
    {
      if resumeFile.None? || jobText == "" {
        effect := Alert(GateMessage);
        return;
      }
      var form := FormFor(resumeFile.value, jobText);
      loading := true;
      error := "";
      effect := Post(UploadUrl, form);
    }

    /** `handleSubmit` after its `await`: the `try` stores the response body, the `catch` stores
        the fixed message, and the `finally` clears the loading flag either way. */
    method Settle(outcome: Outcome)
      modifies this
      ensures !loading
      ensures outcome.Resolved? ==> result == Some(outcome.data) && error == old(error)
      ensures outcome.Rejected? ==> result == old(result) && error == FailureMessage
      ensures resumeFile == old(resumeFile) && jobText == old(jobText)
    {
      match outcome {
        case Resolved(data) =>
          result := Some(data);
        case Rejected =>
          error := FailureMessage;
      }
      loading := false;
    }

    /** A whole run of `handleSubmit`, with the way the request settles as a parameter: a blocked
        submission changes nothing; a sent one ends with the loading flag down and either the new
        result and no error, or the old result and the failure message. The inputs survive. */
    method Submit(outcome: Outcome) returns (effect: Effect)
      modifies this
      ensures !CanSubmit(old(resumeFile), old(jobText)) ==> effect == Alert(GateMessage) && unchanged(this)
      ensures CanSubmit(old(resumeFile), old(jobText)) ==>
        && effect == Post(UploadUrl, FormFor(old(resumeFile).value, old(jobText)))
        && !loading
        && (outcome.Resolved? ==> result == Some(outcome.data) && error == "")
        && (outcome.Rejected? ==> result == old(result) && error == FailureMessage)
      ensures resumeFile == old(resumeFile) && jobText == old(jobText)
    {
      effect := BeginSubmit();
      if effect.Post? {
        Settle(outcome);
      }
    }
  }

  // ---------------------------------------------------------------------------------------------
  // What the page shows

  datatype Button = Button(disabled: bool, caption: string)

  /** The submit control: disabled, and labelled as busy, exactly while a request is in flight. */
  function SubmitButton(loading: bool): (button: Button)
    ensures button.disabled <==> loading
    ensures button.caption == AnalyzingLabel <==> loading
    ensures !loading ==> button.caption == IdleLabel
  {
    Button(loading, if loading then AnalyzingLabel else IdleLabel)
  }

  /** `{error && <p>{error}</p>}`: the error line appears exactly when there is an error text. */
  function ErrorLine(error: string): (line: Option<string>)
    ensures line.Some? <==> error != ""
    ensures line.Some? ==> line.value == error
  {
    if error == "" then None else Some(error)
  }

  /** One entry of the missing-skills list: its text, and whether it is drawn muted (the
      grey placeholder). */
  datatype ListItem = ListItem(text: string, muted: bool)

  const Placeholder: ListItem := ListItem(NoneText, true)

  /** The missing-skills list: one entry per skill, in order, when the field is present and
      non-empty; otherwise the single placeholder. The list is never empty. */
  function MissingSkillItems(missingSkills: Option<seq<string>>): (items: seq<ListItem>)
    ensures |items| >= 1
    ensures missingSkills.Some? && missingSkills.value != [] ==>
      |items| == |missingSkills.value| && forall i :: 0 <= i < |items| ==> items[i] == ListItem(missingSkills.value[i], false)
    ensures missingSkills.None? || missingSkills.value == [] ==> items == [Placeholder]
  {
    if missingSkills.Some? && |missingSkills.value| > 0 then
      var skills := missingSkills.value;
      seq(|skills|, i requires 0 <= i < |skills| => ListItem(skills[i], false))
    else
      [Placeholder]
  }

  /** The skill names a list shows, muted placeholder left out. */
  function ShownSkills(items: seq<ListItem>): seq<string>
  {
    if items == [] then []
    else (if items[0].muted then [] else [items[0].text]) + ShownSkills(items[1..])
  }

  /** Reading the skill entries back off the rendered list gives the response's list, and an
      absent or empty list reads back as no skills at all. */
  lemma {:induction false} MissingSkillsReadBack(missingSkills: Option<seq<string>>)
    ensures ShownSkills(MissingSkillItems(missingSkills)) == if missingSkills.Some? then missingSkills.value else []
  {
    if missingSkills.Some? && missingSkills.value != [] {
      SkillItemsReadBack(missingSkills.value);
    }
  }

  lemma {:induction false} SkillItemsReadBack(skills: seq<string>)
    ensures ShownSkills(seq(|skills|, i requires 0 <= i < |skills| => ListItem(skills[i], false))) == skills
  {
    var items := seq(|skills|, i requires 0 <= i < |skills| => ListItem(skills[i], false));
    if skills != [] {
      SkillItemsReadBack(skills[1..]);
      assert items[1..] == seq(|skills[1..]|, i requires 0 <= i < |skills[1..]| => ListItem(skills[1..][i], false));
    }
  }

  /** The results region: nothing while there is no result; the rendering throws when the body
      has no model score (the `toFixed` call on an absent value); otherwise both scores and the
      missing-skills list. */
  datatype ResultsRegion =
    | Hidden
    | RenderError
    | Shown(overlapScore: Option<real>, modelScore: real, missingItems: seq<ListItem>)

  function ResultsView(result: Option<ResponseData>): (region: ResultsRegion)
    ensures region.Hidden? <==> result.None?
    ensures region.RenderError? <==> result.Some? && result.value.matchScoreModel.None?
    ensures region.Shown? ==>
      && result == Some(ResponseData(region.overlapScore, Some(region.modelScore), result.value.missingSkills))
      && region.missingItems == MissingSkillItems(result.value.missingSkills)
  {
    match result
    case None => Hidden
    case Some(data) =>
      if data.matchScoreModel.None? then RenderError
      else Shown(data.matchScoreOverlap, data.matchScoreModel.value, MissingSkillItems(data.missingSkills))
  }

  /** A session: a whitespace-only job description passes the gate, a rejected request leaves
      the inputs in place with the failure message, and resubmitting the same inputs sends a
      second, identical request. */
  method RetryAfterFailure(file: FileHandle, data: ResponseData)
  {
    var page := new ResumeMatchPage();
    var blocked := page.Submit(Rejected);
    assert blocked == Alert(GateMessage);
    page.SelectResume(Some(file));
    page.EditJobText("   ");
    var first := page.Submit(Rejected);
    assert first == Post(UploadUrl, FormFor(file, "   "));
    assert page.error == FailureMessage && page.result == None && !page.loading;
    assert ResultsView(page.result) == Hidden;
    var second := page.Submit(Resolved(data));
    assert second == first;
    assert page.error == "" && page.result == Some(data);
    assert ErrorLine(page.error) == None && !SubmitButton(page.loading).disabled;
  }

}
