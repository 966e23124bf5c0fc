/** The skill tokenizer and overlap measure of backend/process_dataset.py, which turn the
    free-text skill columns of the resume and job CSV files into training examples. */
module Dataset {
  import opened Strings
  import opened Seqs

  /** A CSV cell as pandas hands it over: a string, or anything else (a missing value, a number). */
  datatype Cell = Str(text: string) | NotStr

  /** The characters of the regular expression `[\*,;\-\n]`. */
  predicate IsSeparator(c: char)
  {
    c == '*' || c == ',' || c == ';' || c == '-' || c == '\n'
  }

  predicate NoSeparator(s: string)
  {
    forall i :: 0 <= i < |s| ==> !IsSeparator(s[i])
  }

  /** `re.split(r'[\*,;\-\n]', text)`: the pieces between separators, empty ones included,
      so there is always one piece more than there are separators. */
  function Split(s: string): (pieces: seq<string>)
    ensures |pieces| >= 1
    ensures forall p :: p in pieces ==> NoSeparator(p)
  {
    if s == [] then [""]
    else
      var rest := Split(s[1..]);
      if IsSeparator(s[0]) then [""] + rest
      else
        assert rest[0] in rest;
        var first := [s[0]] + rest[0];
        assert forall i :: 1 <= i < |first| ==> first[i] == rest[0][i - 1];
        [first] + rest[1..]
  }

  /** The separators of `s`, in order. */
  function SeparatorsOf(s: string): (seps: string)
    ensures forall c :: c in seps ==> IsSeparator(c)
  {
    if s == [] then []
    else if IsSeparator(s[0]) then [s[0]] + SeparatorsOf(s[1..])
    else SeparatorsOf(s[1..])
  }

  /** Puts pieces back together, with the given separators between them. */
  function Rejoin(pieces: seq<string>, seps: string): string
    requires |pieces| == |seps| + 1
  {
    if seps == [] then pieces[0]
    else pieces[0] + [seps[0]] + Rejoin(pieces[1..], seps[1..])
  }

  /** Splitting loses nothing: the pieces, rejoined with the separators that were cut out,
      give back the text. */
  lemma {:induction false} SplitRejoin(s: string)
    ensures |Split(s)| == |SeparatorsOf(s)| + 1
    ensures Rejoin(Split(s), SeparatorsOf(s)) == s
  {
    if s != [] {
      SplitRejoin(s[1..]);
      var rest := Split(s[1..]);
      if IsSeparator(s[0]) {
        assert Split(s)[1..] == rest;
      } else {
        var seps := SeparatorsOf(s[1..]);
        if seps == [] {
          assert Rejoin(Split(s), seps) == [s[0]] + rest[0];
        } else {
          assert Split(s)[1..] == rest[1..];
        }
      }
    }
  }

  /** `[s.strip() for s in pieces if len(s.strip()) > 1]`. */
  function Tokens(pieces: seq<string>): (tokens: seq<string>)
    ensures forall t :: t in tokens ==> |t| > 1 && IsTrimmed(t)
    ensures |tokens| <= |pieces|
  {
    if pieces == [] then []
    else
      var t := Strip(pieces[0]);
      (if |t| > 1 then [t] else []) + Tokens(pieces[1..])
  }

  /** Stripping only removes characters, so it cannot bring in a separator. */
  lemma StripKeepsNoSeparator(p: string)
    requires NoSeparator(p)
    ensures NoSeparator(Strip(p))
  {
    forall i | 0 <= i < |Strip(p)| ensures !IsSeparator(Strip(p)[i]) {
      assert Strip(p)[i] == p[StripStart(p) + i];
    }
  }

  /** No token holds a separator, and every piece that is longer than one character once
      stripped shows up as a token. */
  lemma {:induction false} TokensFromPieces(pieces: seq<string>)
    requires forall p :: p in pieces ==> NoSeparator(p)
    ensures forall t :: t in Tokens(pieces) ==> NoSeparator(t)
    ensures forall p :: p in pieces && |Strip(p)| > 1 ==> Strip(p) in Tokens(pieces)
  {
    if pieces != [] {
      TokensFromPieces(pieces[1..]);
      StripKeepsNoSeparator(pieces[0]);
      assert forall p :: p in pieces ==> p == pieces[0] || p in pieces[1..];
    }
  }

  /** `map(str.strip, pieces)`. */
  function StripAll(pieces: seq<string>): (stripped: seq<string>)
    ensures |stripped| == |pieces|
    ensures forall i :: 0 <= i < |pieces| ==> stripped[i] == Strip(pieces[i])
  {
    seq(|pieces|, i requires 0 <= i < |pieces| => Strip(pieces[i]))
  }

  /** The filter keeps every copy: a string is a token as many times as the stripped pieces hold
      it, when it is longer than one character, and never otherwise. */
  lemma {:induction false} TokensCount(pieces: seq<string>)
    ensures forall t :: multiset(Tokens(pieces))[t] == if |t| > 1 then multiset(StripAll(pieces))[t] else 0
  {
    if pieces != [] {
      TokensCount(pieces[1..]);
      var all, rest := StripAll(pieces), StripAll(pieces[1..]);
      var head := Strip(pieces[0]);
      assert all == [head] + rest;
      var kept := if |head| > 1 then [head] else [];
      assert Tokens(pieces) == kept + Tokens(pieces[1..]);
      assert multiset(all) == multiset{head} + multiset(rest);
      assert multiset(Tokens(pieces)) == multiset(kept) + multiset(Tokens(pieces[1..]));
    }
  }

  /** The filter keeps the order of the pieces it keeps. */
  lemma {:induction false} TokensInOrder(pieces: seq<string>)
    ensures IsSubsequence(Tokens(pieces), StripAll(pieces))
  {
    if pieces != [] {
      var all, rest := StripAll(pieces), Tokens(pieces[1..]);
      TokensInOrder(pieces[1..]);
      assert all[1..] == StripAll(pieces[1..]);
      var t := Strip(pieces[0]);
      if |t| > 1 {
        var tokens := [t] + rest;
        assert tokens[0] == all[0] && tokens[1..] == rest;
        assert Tokens(pieces) == tokens;
      } else {
        assert Tokens(pieces) == rest;
        SubsequenceSkip(rest, all);
      }
    }
  }

  /** `extract_skills(text)`: nothing for a cell that is not a string; otherwise the stripped
      pieces of the split text that are longer than one character. */
  function ExtractSkills(cell: Cell): (skills: seq<string>)
    ensures cell.NotStr? ==> skills == []
    ensures forall t :: t in skills ==> |t| > 1 && IsTrimmed(t) && NoSeparator(t)
  {
    match cell
    case NotStr => []
    case Str(text) =>
      TokensFromPieces(Split(text));
      Tokens(Split(text))
  }

  /** The skills of a text come out in the order their pieces stand in the text, every piece
      that is longer than one character once stripped is among them, and each such string is kept
      as many times as it stands in the text. */
  lemma ExtractSkillsInTextOrder(text: string)
    ensures IsSubsequence(ExtractSkills(Str(text)), StripAll(Split(text)))
    ensures forall p :: p in Split(text) && |Strip(p)| > 1 ==> Strip(p) in ExtractSkills(Str(text))
    ensures forall t :: multiset(ExtractSkills(Str(text)))[t] == if |t| > 1 then multiset(StripAll(Split(text)))[t] else 0
  {
    TokensInOrder(Split(text));
    TokensFromPieces(Split(text));
    TokensCount(Split(text));
  }

  // ---------------------------------------------------------------------------------------------
  // The overlap score of one (resume, job) pair

  /** `set([s.lower() for s in skills])`. */
  function LowerSet(skills: seq<string>): set<string>
  {
    set s | s in skills :: Lower(s)
  }

  /** `len(resume_skills & job_skills) / max(len(job_skills), 1)`, kept as a numerator and a
      denominator rather than as the float it becomes. */
  datatype Overlap = Overlap(numerator: nat, denominator: nat)

  function OverlapOf(resumeSkills: seq<string>, jobSkills: seq<string>): (o: Overlap)
    ensures 1 <= o.denominator && o.numerator <= o.denominator
    ensures jobSkills == [] ==> o == Overlap(0, 1)
  {
    var r, j := LowerSet(resumeSkills), LowerSet(jobSkills);
    SubsetCard(r * j, j);
    Overlap(|r * j|, if |j| >= 1 then |j| else 1)
  }

  /** `[s.lower() for s in skills]`. */
  function LowerAll(skills: seq<string>): (lowered: seq<string>)
    ensures |lowered| == |skills|
    ensures forall i :: 0 <= i < |skills| ==> lowered[i] == Lower(skills[i])
  {
    seq(|skills|, i requires 0 <= i < |skills| => Lower(skills[i]))
  }

  /** The overlap does not see letter case: lower-casing the skills beforehand changes nothing. */
  lemma OverlapIgnoresCase(resumeSkills: seq<string>, jobSkills: seq<string>)
    ensures OverlapOf(LowerAll(resumeSkills), LowerAll(jobSkills)) == OverlapOf(resumeSkills, jobSkills)
  {
    LowerSetOfLowerAll(resumeSkills);
    LowerSetOfLowerAll(jobSkills);
  }

  lemma LowerSetOfLowerAll(skills: seq<string>)
    ensures LowerSet(LowerAll(skills)) == LowerSet(skills)
  {
    var lowered := LowerAll(skills);
    forall x | x in LowerSet(lowered) ensures x in LowerSet(skills) {
      var i :| 0 <= i < |lowered| && Lower(lowered[i]) == x;
      LowerIdempotent(skills[i]);
    }
    forall x | x in LowerSet(skills) ensures x in LowerSet(lowered) {
      var i :| 0 <= i < |skills| && Lower(skills[i]) == x;
      LowerIdempotent(skills[i]);
      assert lowered[i] in lowered;
    }
  }

  /** Adding a skill whose lower-cased form is already present leaves the lower-cased set alone. */
  lemma LowerSetIgnoresDuplicate(skills: seq<string>, extra: string, twinIndex: nat)
    requires twinIndex < |skills| && Lower(skills[twinIndex]) == Lower(extra)
    ensures LowerSet(skills + [extra]) == LowerSet(skills)
  {
    assert skills[twinIndex] in skills;
  }

  /** The overlap does not see repetition in the resume: adding a skill that is already there in
      some letter case changes nothing. */
  lemma OverlapIgnoresResumeDuplicate(resumeSkills: seq<string>, jobSkills: seq<string>, extra: string, twin: nat)
    requires twin < |resumeSkills| && Lower(resumeSkills[twin]) == Lower(extra)
    ensures OverlapOf(resumeSkills + [extra], jobSkills) == OverlapOf(resumeSkills, jobSkills)
  {
    LowerSetIgnoresDuplicate(resumeSkills, extra, twin);
  }

  /** Nor in the job: adding a job skill that is already there in some letter case changes
      nothing. */
  lemma OverlapIgnoresJobDuplicate(resumeSkills: seq<string>, jobSkills: seq<string>, extra: string, twin: nat)
    requires twin < |jobSkills| && Lower(jobSkills[twin]) == Lower(extra)
    ensures OverlapOf(resumeSkills, jobSkills + [extra]) == OverlapOf(resumeSkills, jobSkills)
  {
    LowerSetIgnoresDuplicate(jobSkills, extra, twin);
  }

  /** Every job skill is found in the resume (up to case) exactly when the overlap is complete,
      for a non-empty job list. */
  lemma OverlapCompleteIff(resumeSkills: seq<string>, jobSkills: seq<string>)
    requires jobSkills != []
    ensures var o := OverlapOf(resumeSkills, jobSkills);
      o.numerator == o.denominator <==> LowerSet(jobSkills) <= LowerSet(resumeSkills)
  {
    var r, j := LowerSet(resumeSkills), LowerSet(jobSkills);
    assert Lower(jobSkills[0]) in j;
    if j <= r {
      assert r * j == j;
    } else {
      var x :| x in j && x !in r;
      assert r * j <= j - {x};
      SubsetCard(r * j, j - {x});
    }
  }

}
