/** The keyword skill matcher of backend/matcher.py: find the dictionary skills mentioned in a
    text, split a job's skills into those the resume has and those it lacks, and score the match. */
module Matcher {
  import opened Strings
  import opened Seqs

  /** A skills dictionary: category name to the list of skill names in that category. */
  type SkillsDict = map<string, seq<string>>

  /** What `compare_resume_job` returns. Python builds `matched` and `missing` as `list(set)`,
      whose order is unspecified, so here they are sets. */
  datatype Comparison = Comparison(
    resumeSkills: map<string, seq<string>>,
    jobSkills: map<string, seq<string>>,
    matched: map<string, set<string>>,
    missing: map<string, set<string>>,
    matchScore: int)

  // ---------------------------------------------------------------------------------------------
  // extract_skills

  /** The list comprehension of `extract_skills`: the skills of one category whose lower-cased
      name occurs in the lower-cased text, in dictionary order. */
  function MatchesIn(skills: seq<string>, textLower: string): (matches: seq<string>)
    ensures forall s :: s in matches <==> s in skills && Occurs(Lower(s), textLower)
    ensures |matches| <= |skills|
  {
    if skills == [] then []
    else
      var rest := MatchesIn(skills[1..], textLower);
      if Occurs(Lower(skills[0]), textLower) then [skills[0]] + rest else rest
  }

  /** The comprehension keeps every copy of a mentioned skill: a skill listed twice in a category
      is matched twice, and `calculate_match_score` counts it twice. */
  lemma {:induction false} MatchesInCount(skills: seq<string>, textLower: string)
    ensures forall s ::
      multiset(MatchesIn(skills, textLower))[s] == if Occurs(Lower(s), textLower) then multiset(skills)[s] else 0
  {
    if skills != [] {
      MatchesInCount(skills[1..], textLower);
      assert skills == [skills[0]] + skills[1..];
    }
  }

  /** The comprehension only drops entries: its output keeps the dictionary's order. */
  lemma {:induction false} MatchesInIsSubsequence(skills: seq<string>, textLower: string)
    ensures IsSubsequence(MatchesIn(skills, textLower), skills)
  {
    if skills != [] {
      var rest := MatchesIn(skills[1..], textLower);
      MatchesInIsSubsequence(skills[1..], textLower);
      if Occurs(Lower(skills[0]), textLower) {
        assert MatchesIn(skills, textLower)[1..] == rest;
      } else {
        SubsequenceSkip(rest, skills);
      }
    }
  }

  /** The value `extract_skills(text, skills_dict)` returns: each category with at least one
      skill mentioned in the text, mapped to those skills. */
  function SkillsIn(text: string, skillsDict: SkillsDict): map<string, seq<string>>
  {
    var textLower := Lower(text);
    map c | c in skillsDict && MatchesIn(skillsDict[c], textLower) != [] :: MatchesIn(skillsDict[c], textLower)
  }

  /** `extract_skills`: visits every category once and records the non-empty match lists. */
  method ExtractSkills(text: string, skillsDict: SkillsDict) returns (found: map<string, seq<string>>)
    ensures found == SkillsIn(text, skillsDict)
  {
    found := map[];
    var textLower := Lower(text);
    var todo := skillsDict.Keys;
    while todo != {}
      invariant todo <= skillsDict.Keys
      invariant found == map c | c in skillsDict.Keys - todo && MatchesIn(skillsDict[c], textLower) != []
                               :: MatchesIn(skillsDict[c], textLower)
      decreases todo
    {
      var category :| category in todo;
      var matches := MatchesIn(skillsDict[category], textLower);
      if matches != [] {
        found := found[category := matches];
      }
      todo := todo - {category};
    }
  }

  /** Everything `extract_skills` reports is a dictionary skill of that category that the text
      mentions, every reported category is non-empty, and each list keeps the dictionary order. */
  lemma SkillsInSound(text: string, skillsDict: SkillsDict)
    ensures var found := SkillsIn(text, skillsDict);
      forall c :: c in found ==>
        && c in skillsDict
        && found[c] != []
        && IsSubsequence(found[c], skillsDict[c])
        && forall s :: s in found[c] ==> s in skillsDict[c] && Occurs(Lower(s), Lower(text))
  {
    var found := SkillsIn(text, skillsDict);
    forall c | c in found ensures IsSubsequence(found[c], skillsDict[c]) {
      MatchesInIsSubsequence(skillsDict[c], Lower(text));
    }
  }

  /** Conversely, every dictionary skill the text mentions is reported under its category,
      so a category is absent exactly when none of its skills is mentioned. */
  lemma SkillsInComplete(text: string, skillsDict: SkillsDict)
    ensures var found := SkillsIn(text, skillsDict);
      forall c, s :: c in skillsDict && s in skillsDict[c] && Occurs(Lower(s), Lower(text)) ==>
        c in found && s in found[c]
  {
  }

  // ---------------------------------------------------------------------------------------------
  // compare_resume_job

  /** `set(resume_skills.get(category, []))`. */
  function SkillsOf(found: map<string, seq<string>>, category: string): set<string>
  {
    if category in found then Elems(found[category]) else {}
  }

  /** `matched`: per job category, the job skills the resume also lists. */
  function MatchedIn(resumeSkills: map<string, seq<string>>, jobSkills: map<string, seq<string>>): map<string, set<string>>
  {
    map c | c in jobSkills :: SkillsOf(resumeSkills, c) * Elems(jobSkills[c])
  }

  /** `missing`: per job category, the job skills the resume does not list. */
  function MissingIn(resumeSkills: map<string, seq<string>>, jobSkills: map<string, seq<string>>): map<string, set<string>>
  {
    map c | c in jobSkills :: Elems(jobSkills[c]) - SkillsOf(resumeSkills, c)
  }

  /** `compare_resume_job`: extracts both skill maps, fills `matched` and `missing` category by
      category, and scores the result. */
  method CompareResumeJob(resumeText: string, jobText: string, skillsDict: SkillsDict) returns (r: Comparison)
    ensures r.resumeSkills == SkillsIn(resumeText, skillsDict)
    ensures r.jobSkills == SkillsIn(jobText, skillsDict)
    ensures r.matched.Keys == r.jobSkills.Keys && r.missing.Keys == r.jobSkills.Keys
    ensures forall c :: c in r.matched ==>
      && r.matched[c] !! r.missing[c]
      && r.matched[c] + r.missing[c] == Elems(r.jobSkills[c])
      && r.matched[c] <= SkillsOf(r.resumeSkills, c)
      && r.missing[c] !! SkillsOf(r.resumeSkills, c)
    ensures 0 <= r.matchScore <= 100
    ensures (forall c :: c in r.matched ==> r.matched[c] == {}) ==> r.matchScore == 0
    ensures r.jobSkills != map[]
      && (forall c :: c in r.missing ==> r.missing[c] == {})
      && (forall c :: c in r.jobSkills ==> NoDuplicates(r.jobSkills[c]))
      ==> r.matchScore == 100
  {
    var resumeSkills := ExtractSkills(resumeText, skillsDict);
    var jobSkills := ExtractSkills(jobText, skillsDict);
    var matched, missing := SplitJobSkills(resumeSkills, jobSkills);
    var score := CalculateMatchScore(matched, jobSkills);
    ComparisonPartition(resumeSkills, jobSkills);
    MatchedNotAboveRequired(resumeSkills, jobSkills);
    NothingMatchedTotal(resumeSkills, jobSkills);
    NothingMissingTotal(resumeSkills, jobSkills);
    RequiredPositive(jobSkills);
    r := Comparison(resumeSkills, jobSkills, matched, missing, score);
  }

  /** The loop of `compare_resume_job`: for each job category, intersects the job's skill set
      with the resume's and subtracts the resume's from it. */
  method SplitJobSkills(resumeSkills: map<string, seq<string>>, jobSkills: map<string, seq<string>>)
    returns (matched: map<string, set<string>>, missing: map<string, set<string>>)
    ensures matched == MatchedIn(resumeSkills, jobSkills)
    ensures missing == MissingIn(resumeSkills, jobSkills)
  {
    matched, missing := map[], map[];
    var todo := jobSkills.Keys;
    while todo != {}
      invariant todo <= jobSkills.Keys
      invariant matched == MatchedIn(resumeSkills, jobSkills - todo)
      invariant missing == MissingIn(resumeSkills, jobSkills - todo)
      decreases todo
    {
      var category :| category in todo;
      var resumeSet := SkillsOf(resumeSkills, category);
      var jobSet := Elems(jobSkills[category]);
      ghost var done := jobSkills - todo;
      assert jobSkills - (todo - {category}) == done[category := jobSkills[category]];
      matched := matched[category := resumeSet * jobSet];
      missing := missing[category := jobSet - resumeSet];
      todo := todo - {category};
    }
    assert jobSkills - todo == jobSkills;
  }

  // ---------------------------------------------------------------------------------------------
  // calculate_match_score

  /** The sum of `count` over `keys`. */
  ghost function Total(keys: set<string>, count: map<string, nat>): nat
    requires keys <= count.Keys
    decreases keys
  {
    if keys == {} then 0
    else
      var c :| c in keys;
      count[c] + Total(keys - {c}, count)
  }

  /** A sum may be peeled at any key, whichever key the definition happened to choose. */
  lemma {:induction false} TotalRemove(keys: set<string>, count: map<string, nat>, c: string)
    requires keys <= count.Keys && c in keys
    ensures Total(keys, count) == count[c] + Total(keys - {c}, count)
    decreases keys
  {
    var d :| d in keys && Total(keys, count) == count[d] + Total(keys - {d}, count);
    if d != c {
      TotalRemove(keys - {d}, count, c);
      TotalRemove(keys - {c}, count, d);
      assert keys - {d} - {c} == keys - {c} - {d};
    }
  }

  /** Sums compare as their terms do. */
  lemma {:induction false} TotalMonotone(keys: set<string>, a: map<string, nat>, b: map<string, nat>)
    requires keys <= a.Keys && keys <= b.Keys
    requires forall c :: c in keys ==> a[c] <= b[c]
    ensures Total(keys, a) <= Total(keys, b)
    ensures (forall c :: c in keys ==> a[c] == b[c]) ==> Total(keys, a) == Total(keys, b)
    decreases keys
  {
    if keys != {} {
      var c :| c in keys;
      TotalRemove(keys, a, c);
      TotalRemove(keys, b, c);
      TotalMonotone(keys - {c}, a, b);
    }
  }

  /** A sum is zero exactly when every term is zero. */
  lemma {:induction false} TotalZero(keys: set<string>, count: map<string, nat>)
    requires keys <= count.Keys
    ensures Total(keys, count) == 0 <==> forall c :: c in keys ==> count[c] == 0
    decreases keys
  {
    if keys != {} {
      var c :| c in keys;
      TotalRemove(keys, count, c);
      TotalZero(keys - {c}, count);
    }
  }

  /** `len(job_skills[category])` for every job category. */
  function JobCounts(jobSkills: map<string, seq<string>>): map<string, nat>
  {
    map c | c in jobSkills :: |jobSkills[c]|
  }

  /** `len(matched.get(category, []))` for every job category. */
  function MatchedCounts(matched: map<string, set<string>>, jobSkills: map<string, seq<string>>): map<string, nat>
  {
    map c | c in jobSkills :: if c in matched then |matched[c]| else 0
  }

  /** `total_required`. */
  ghost function TotalRequired(jobSkills: map<string, seq<string>>): nat
  {
    Total(jobSkills.Keys, JobCounts(jobSkills))
  }

  /** `total_matched`. */
  ghost function TotalMatched(matched: map<string, set<string>>, jobSkills: map<string, seq<string>>): nat
  {
    Total(jobSkills.Keys, MatchedCounts(matched, jobSkills))
  }

  /** `calculate_match_score`: accumulates both totals over the job categories, returns 0 when
      nothing is required and otherwise the truncated percentage of required skills matched. */
  method CalculateMatchScore(matched: map<string, set<string>>, jobSkills: map<string, seq<string>>) returns (score: int)
    ensures TotalRequired(jobSkills) == 0 ==> score == 0
    ensures TotalMatched(matched, jobSkills) == 0 ==> score == 0
    ensures 0 < TotalRequired(jobSkills) == TotalMatched(matched, jobSkills) ==> score == 100
    ensures TotalMatched(matched, jobSkills) <= TotalRequired(jobSkills) ==> 0 <= score <= 100
  {
    var totalRequired := 0;
    var totalMatched := 0;
    var todo := jobSkills.Keys;
    while todo != {}
      invariant todo <= jobSkills.Keys
      invariant totalRequired == Total(jobSkills.Keys - todo, JobCounts(jobSkills))
      invariant totalMatched == Total(jobSkills.Keys - todo, MatchedCounts(matched, jobSkills))
      decreases todo
    {
      var category :| category in todo;
      var jobCount := |jobSkills[category]|;
      var matchedCount := if category in matched then |matched[category]| else 0;
      totalRequired := totalRequired + jobCount;
      totalMatched := totalMatched + matchedCount;
      var done := jobSkills.Keys - (todo - {category});
      assert done - {category} == jobSkills.Keys - todo;
      TotalRemove(done, JobCounts(jobSkills), category);
      TotalRemove(done, MatchedCounts(matched, jobSkills), category);
      todo := todo - {category};
    }
    assert jobSkills.Keys - todo == jobSkills.Keys;
    if totalRequired == 0 {
      score := 0;
    } else {
      score := (totalMatched * 100) / totalRequired;
      PercentBounds(totalMatched, totalRequired);
    }
  }

  /** The truncated percentage of `m` out of `r` lies in 0..100 when `m <= r`, and is 0 for
      `m == 0` and 100 for `m == r`. */
  lemma PercentBounds(m: nat, r: nat)
    requires r > 0
    ensures (m * 100) / r >= 0
    ensures m == 0 ==> (m * 100) / r == 0
    ensures m == r ==> (m * 100) / r == 100
    ensures m <= r ==> (m * 100) / r <= 100
  {
  }

  /** In the comparison, no category has more matched skills than the job lists for it,
      so the total matched never exceeds the total required. */
  lemma MatchedNotAboveRequired(resumeSkills: map<string, seq<string>>, jobSkills: map<string, seq<string>>)
    ensures TotalMatched(MatchedIn(resumeSkills, jobSkills), jobSkills) <= TotalRequired(jobSkills)
  {
    var matched := MatchedIn(resumeSkills, jobSkills);
    forall c | c in jobSkills
      ensures MatchedCounts(matched, jobSkills)[c] <= JobCounts(jobSkills)[c]
    {
      SubsetCard(matched[c], Elems(jobSkills[c]));
      ElemsCard(jobSkills[c]);
    }
    TotalMonotone(jobSkills.Keys, MatchedCounts(matched, jobSkills), JobCounts(jobSkills));
  }

  /** If no category has a matched skill, the total matched is zero. */
  lemma NothingMatchedTotal(resumeSkills: map<string, seq<string>>, jobSkills: map<string, seq<string>>)
    ensures var matched := MatchedIn(resumeSkills, jobSkills);
      (forall c :: c in matched ==> matched[c] == {}) ==> TotalMatched(matched, jobSkills) == 0
  {
    TotalZero(jobSkills.Keys, MatchedCounts(MatchedIn(resumeSkills, jobSkills), jobSkills));
  }

  /** If no category misses a skill and no job list repeats a skill, every required skill is
      matched: the two totals agree. */
  lemma NothingMissingTotal(resumeSkills: map<string, seq<string>>, jobSkills: map<string, seq<string>>)
    ensures var missing := MissingIn(resumeSkills, jobSkills);
      (forall c :: c in missing ==> missing[c] == {})
      && (forall c :: c in jobSkills ==> NoDuplicates(jobSkills[c]))
      ==> TotalMatched(MatchedIn(resumeSkills, jobSkills), jobSkills) == TotalRequired(jobSkills)
  {
    var matched, missing := MatchedIn(resumeSkills, jobSkills), MissingIn(resumeSkills, jobSkills);
    if (forall c :: c in missing ==> missing[c] == {})
      && (forall c :: c in jobSkills ==> NoDuplicates(jobSkills[c]))
    {
      forall c | c in jobSkills
        ensures MatchedCounts(matched, jobSkills)[c] == JobCounts(jobSkills)[c]
      {
        assert c in missing;
        assert missing[c] == Elems(jobSkills[c]) - SkillsOf(resumeSkills, c);
        forall x | x in Elems(jobSkills[c]) ensures x in SkillsOf(resumeSkills, c) {
          assert x !in missing[c];
        }
        assert matched[c] == Elems(jobSkills[c]);
        ElemsCard(jobSkills[c]);
      }
      TotalMonotone(jobSkills.Keys, MatchedCounts(matched, jobSkills), JobCounts(jobSkills));
    }
  }

  /** A non-empty job map whose lists are non-empty, as `extract_skills` produces, requires
      at least one skill. */
  lemma RequiredPositive(jobSkills: map<string, seq<string>>)
    requires forall c :: c in jobSkills ==> jobSkills[c] != []
    ensures jobSkills != map[] ==> TotalRequired(jobSkills) > 0
  {
    if jobSkills != map[] {
      var c :| c in jobSkills;
      assert JobCounts(jobSkills)[c] != 0;
      TotalZero(jobSkills.Keys, JobCounts(jobSkills));
    }
  }

  /** Per job category, `matched` and `missing` split the job's skills in two: the part the
      resume lists and the part it does not. */
  lemma ComparisonPartition(resumeSkills: map<string, seq<string>>, jobSkills: map<string, seq<string>>)
    ensures var matched, missing := MatchedIn(resumeSkills, jobSkills), MissingIn(resumeSkills, jobSkills);
      && matched.Keys == jobSkills.Keys && missing.Keys == jobSkills.Keys
      && forall c :: c in matched ==>
        && matched[c] !! missing[c]
        && matched[c] + missing[c] == Elems(jobSkills[c])
        && matched[c] <= SkillsOf(resumeSkills, c)
        && missing[c] !! SkillsOf(resumeSkills, c)
  {
  }

}
