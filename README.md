# ResumeRise core, modelled in Dafny

ResumeRise compares a resume with a job description. This project models three parts of it:

- **The keyword skill matcher** (`backend/matcher.py`, module `Matcher`). `extract_skills` finds the skills of a skills dictionary (category to list of skill names) that a text mentions, ignoring case. `compare_resume_job` splits each job category's skills into those the resume also has (`matched`) and those it lacks (`missing`). `calculate_match_score` turns the counts into a percentage. The three loops are modelled as methods. Each method is proved against a specification function (`SkillsIn`, `MatchedIn`/`MissingIn`, the ghost sums `TotalRequired`/`TotalMatched`), and lemmas state what those functions guarantee.
- **The dataset tokenizer** (`backend/process_dataset.py`, module `Dataset`). `extract_skills(text)` splits a skills cell on `*` `,` `;` `-` and newline, strips each piece and keeps pieces longer than one character. The overlap of a resume and a job is computed on lower-cased skill sets. Both are pure functions.
- **The resume-matching page** (`frontend/src/pages/ResumeMatchPage.jsx`, module `ResumeMatch`). The component's five state slots form the class `ResumeMatchPage`. `handleSubmit` is modelled as `Submit`, split at its `await` into `BeginSubmit` and `Settle`. The request's outcome (resolved with a body, or rejected) is a parameter. What the page shows is a set of pure functions of that state: the submit button, the error line, the results region and the missing-skills list.

Shared helpers: `Strings` holds ASCII lower-casing, Python's substring test and `str.strip`. `Seqs` holds subsequences, the set of a list and cardinality facts. `Wrappers` holds `Option`.

The page does not check the shape of the response body. A body without `match_score_model` is stored as the result, and the page then fails while rendering (`ResultsView` gives `RenderError`). It does not land in the error state. `handleSubmit` itself does not look at `loading`. Only the disabled button keeps a second request from starting while one is in flight, so `BeginSubmit` has no such precondition. A job text made only of white space passes the gate.

## Model

| member | source | states |
|---|---|---|
| `Matcher.MatchesIn` | backend/matcher.py:14 | a skill is in a category's match list exactly when it is in the category's list and its lower-cased form occurs in the lower-cased text; the match list is never longer than the category's list |
| `Matcher.MatchesInCount` | backend/matcher.py:14 | the match list keeps every copy: a skill mentioned in the text appears in it as many times as the category lists it, and an unmentioned one not at all, so a repeated dictionary entry is matched (and later counted) twice |
| `Matcher.MatchesInIsSubsequence` | backend/matcher.py:14 | the match list keeps the dictionary's order: it is a subsequence of the category's list |
| `Matcher.ExtractSkills` | backend/matcher.py:8-18 | the loop over the categories builds exactly `SkillsIn(text, skillsDict)`: each category with a non-empty match list, mapped to that list |
| `Matcher.SkillsInSound` | backend/matcher.py:11-16 | every reported category is a dictionary category with a non-empty list; every reported skill belongs to that category and its lower-cased form occurs in the lower-cased text; each list is a subsequence of the dictionary's list |
| `Matcher.SkillsInComplete` | backend/matcher.py:13-16 | every dictionary skill the text mentions is reported under its category, so a category is absent exactly when none of its skills is mentioned |
| `Strings.OccursAt` | backend/matcher.py:14 | the recursive substring test used for Python's `in` agrees with "there is an index where the pattern sits in the text" |
| `Matcher.SplitJobSkills` | backend/matcher.py:27-32 | the loop over the job categories builds exactly `MatchedIn` (resume set intersected with job set) and `MissingIn` (job set minus resume set) |
| `Matcher.ComparisonPartition` | backend/matcher.py:27-32 | `matched` and `missing` have the job's categories as keys; per category they are disjoint, their union is the set of job skills, `matched` lies within the resume's skills and `missing` shares none with them |
| `Matcher.CompareResumeJob` | backend/matcher.py:20-43 | returns both extracted maps, the partition above and a score in 0..100; the score is 0 when nothing matched and 100 when the job has skills, nothing is missing and no job list repeats a skill |
| `Matcher.CalculateMatchScore` | backend/matcher.py:45-65 | accumulates the required and matched totals over the job categories; the score is 0 when nothing is required or nothing matched, 100 when everything required is matched, and within 0..100 whenever matched does not exceed required |
| `Matcher.PercentBounds` | backend/matcher.py:60-64 | the truncated percentage of m out of r > 0 is 0 for m = 0, 100 for m = r and at most 100 for m ≤ r |
| `Matcher.MatchedNotAboveRequired` | backend/matcher.py:53-58 | for a comparison's `matched`, the matched total never exceeds the required total, because a category's matched set is no larger than its job list |
| `Matcher.NothingMatchedTotal` | backend/matcher.py:53-58 | when every matched set is empty the matched total is 0 |
| `Matcher.NothingMissingTotal` | backend/matcher.py:53-58 | when nothing is missing and no job list repeats a skill, the matched total equals the required total |
| `Matcher.RequiredPositive` | backend/matcher.py:53-57 | a non-empty job map whose lists are non-empty, as `extract_skills` produces, requires at least one skill |
| `Dataset.Split` | backend/process_dataset.py:16 | `re.split` on the separator class gives at least one piece, and no piece contains a separator |
| `Dataset.SplitRejoin` | backend/process_dataset.py:16 | there is one piece more than there are separators, and joining the pieces with the separators that were cut out gives back the text |
| `Strings.SkipSpaceForward` | backend/process_dataset.py:17 | returns the first index from the starting point on that does not hold white space (or the length): everything skipped is white space |
| `Strings.SkipSpaceBackward` | backend/process_dataset.py:17 | walking down from the end, returns the end of the last character that is not white space (or the lower bound): everything skipped is white space |
| `Strings.Strip` | backend/process_dataset.py:17 | the result is the contiguous block of the input between its leading and its trailing white space; everything cut off is white space, and the result neither starts nor ends with white space |
| `Dataset.Tokens` | backend/process_dataset.py:17 | every kept token is longer than one character and has no leading or trailing white space; there are no more tokens than pieces |
| `Dataset.StripKeepsNoSeparator` | backend/process_dataset.py:16-17 | stripping a piece without separators yields a string without separators |
| `Dataset.TokensFromPieces` | backend/process_dataset.py:16-17 | no token holds a separator, and every piece longer than one character once stripped appears as a token |
| `Dataset.TokensCount` | backend/process_dataset.py:17 | the filter keeps every copy: a string longer than one character is a token exactly as many times as it is a stripped piece, and a shorter one never |
| `Dataset.TokensInOrder` | backend/process_dataset.py:17 | the tokens are a subsequence of the stripped pieces, in the pieces' order |
| `Dataset.ExtractSkills` | backend/process_dataset.py:13-18 | a cell that is not a string gives no skills; every skill is longer than one character, trimmed and free of separators |
| `Dataset.ExtractSkillsInTextOrder` | backend/process_dataset.py:16-17 | the skills of a text appear in the order of their pieces in the text, every qualifying piece's text appears, and each string longer than one character is kept exactly as many times as it stands, stripped, among the pieces |
| `Dataset.OverlapOf` | backend/process_dataset.py:34 | the denominator is at least 1 and the numerator never exceeds it, so the ratio lies in [0, 1]; an empty job list gives 0 out of 1 |
| `Dataset.OverlapIgnoresCase` | backend/process_dataset.py:30-31 | lower-casing the skills beforehand leaves the overlap unchanged |
| `Dataset.OverlapIgnoresResumeDuplicate` | backend/process_dataset.py:30 | adding to the resume list a skill already present in it in some letter case leaves the overlap unchanged |
| `Dataset.OverlapIgnoresJobDuplicate` | backend/process_dataset.py:31 | adding to the job list a skill already present in it in some letter case leaves the overlap unchanged |
| `Dataset.OverlapCompleteIff` | backend/process_dataset.py:30-34 | for a non-empty job list, the ratio is 1 exactly when every lower-cased job skill is among the lower-cased resume skills |
| `ResumeMatch.ResumeMatchPage.constructor` | frontend/src/pages/ResumeMatchPage.jsx:5-9 | no file, empty job text, no result, not loading, no error |
| `ResumeMatch.ResumeMatchPage.SelectResume` | frontend/src/pages/ResumeMatchPage.jsx:62 | replaces the chosen file and nothing else |
| `ResumeMatch.ResumeMatchPage.EditJobText` | frontend/src/pages/ResumeMatchPage.jsx:70 | replaces the job text verbatim and nothing else |
| `ResumeMatch.ResumeMatchPage.BeginSubmit` | frontend/src/pages/ResumeMatchPage.jsx:11-25 | without a file or with an empty job text: the alert and no state change; otherwise the post to the upload URL with the two named parts, `loading` true and `error` empty before the request is issued |
| `ResumeMatch.ResumeMatchPage.Settle` | frontend/src/pages/ResumeMatchPage.jsx:26-34 | resolved: the body becomes the result, the error is kept; rejected: the fixed failure message, the old result is kept; either way `loading` ends false and the inputs are untouched |
| `ResumeMatch.ResumeMatchPage.Submit` | frontend/src/pages/ResumeMatchPage.jsx:11-35 | a blocked submit changes nothing; a sent one posts the inputs and ends with `loading` false and either the new result with no error, or the old result with the failure message; the file and the job text survive both outcomes |
| `ResumeMatch.SubmitButton` | frontend/src/pages/ResumeMatchPage.jsx:77-83 | the button is disabled exactly while loading, and shows the "Analyzing..." caption exactly then |
| `ResumeMatch.ErrorLine` | frontend/src/pages/ResumeMatchPage.jsx:84 | the error line appears exactly when the error text is non-empty, and shows that text |
| `ResumeMatch.MissingSkillItems` | frontend/src/pages/ResumeMatchPage.jsx:124-128 | one unmuted entry per missing skill, in order, when the list is present and non-empty; otherwise exactly the muted "None" entry; never an empty list |
| `ResumeMatch.MissingSkillsReadBack` | frontend/src/pages/ResumeMatchPage.jsx:124-128 | reading the unmuted entries back off the rendered list gives the response's skill list, and an absent list reads back as empty |
| `ResumeMatch.ResultsView` | frontend/src/pages/ResumeMatchPage.jsx:89-132 | the results region is hidden exactly when there is no result; it fails to render exactly when the result has no model score; otherwise it shows the result's two scores and its missing-skills list |

## Left out

- `load_skills` and the `__main__` demo of `backend/matcher.py` read a JSON file and print. They are file and console I/O.
- Matcher.CalculateMatchScore: the source computes `int((total_matched / total_required) * 100)` in floating point, which can come out one lower than the exact truncated percentage (29 of 100 gives 28). The model computes over the integers, and its contract claims only the bounds and the 0 and 100 end points, which hold for both.
- Matcher.CompareResumeJob: `matched` and `missing` are sets, not the source's `list(set(...))`, whose order Python leaves unspecified. The order in which dictionaries are visited is modelled as an arbitrary choice, and the key order of the returned dictionaries is not modelled.
- Strings.Lower: ASCII letters only. Python's `str.lower` also folds non-ASCII letters.
- Strings.Strip: only ASCII white space (space, 0x09 to 0x0D, 0x1C to 0x1F) is stripped. Python's `str.strip` also strips Unicode white space.
- `backend/process_dataset.py`: the pandas CSV reads and writes, the nested `iterrows` loops that build `training_data`, and the `" ".join` of the skill sets are I/O and data-frame plumbing. The overlap is kept as a numerator and a denominator instead of the float quotient.
- Dataset.ExtractSkills: every non-string cell (a missing value, a number) is one case, `NotStr`.
- `frontend/src/pages/ResumeMatchPage.jsx`: axios, `FormData`, `alert` and `console.error` are effects the model returns (`Effect`) or drops (the log line). The request's outcome is a parameter. React's batching of state updates and `e.preventDefault()` are not modelled.
- ResumeMatch.ResultsView: the number formatting (`${x}%`, `toFixed(2)`) and the CSS widths are not modelled. The response body is taken to be a JSON object. Its `missing_skills` is either absent or a list of strings.
- ResumeMatch.ResumeMatchPage.Submit: the two halves of the handler run back to back. Other events arriving during the `await`, such as a second submit or an input edit, are modelled only by calling `BeginSubmit` and `Settle` separately.
- `frontend/src/pages/HomePage.jsx`, `frontend/src/App.js`, `backend/main.py` and `backend/train_model.py` are not part of this model. They hold landing-page markup, a simpler form, HTTP routing, and machine learning on floats.
