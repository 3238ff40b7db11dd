/** The skill form: a typed name plus the selected category and proficiency become a
    skill when the name is not blank. */
module SkillInput {
  import opened Types
  import opened Text

  /** `name.toLowerCase().replace(/\s+/g, '-')`: the id is built from the raw input, so
      leading and trailing whitespace become `-` as well. */
  function DeriveId(raw: string): (id: string)
    ensures NoWs(id)
    ensures forall i :: 0 <= i < |id| ==> !IsUpper(id[i])
    ensures |raw| > 0 <==> |id| > 0
    ensures NoWs(raw) ==> id == Lower(raw)
    ensures id == Scan(Lower(raw), "-", false)
  {
    var low := Lower(raw);
    ReplaceMatchesScan(low, "-");
    ReplaceWsRunsNoWs(low, "-");
    ReplaceWsRunsChars(low, "-");
    assert forall c :: c in low ==> !IsUpper(c);
    assert forall i :: 0 <= i < |ReplaceWsRuns(low, "-")| ==>
      ReplaceWsRuns(low, "-")[i] in ReplaceWsRuns(low, "-");
    ReplaceWsRunsIdentity(low, "-");
    ReplaceWsRuns(low, "-")
  }

  /** Whitespace at either end of the input shows up as `-` at that end of the id. */
  lemma DeriveIdEnds(raw: string)
    requires |raw| > 0
    ensures IsWs(raw[0]) ==> DeriveId(raw)[0] == '-'
    ensures IsWs(raw[|raw| - 1]) ==> DeriveId(raw)[|DeriveId(raw)| - 1] == '-'
  {
    var low := Lower(raw);
    assert DeriveId(raw) == ReplaceWsRuns(low, "-");
    if IsWs(raw[0]) {
      assert IsWs(low[0]);
      assert ReplaceWsRuns(low, "-") == "-" + ReplaceWsRuns(low[SkipWs(low, 0)..], "-");
    }
    if IsWs(raw[|raw| - 1]) {
      assert IsWs(low[|low| - 1]);
      ReplaceEndsWithSep(low, "-");
    }
  }

  lemma {:induction false} ReplaceEndsWithSep(s: string, sep: string)
    requires |s| > 0 && IsWs(s[|s| - 1]) && |sep| > 0
    ensures var r := ReplaceWsRuns(s, sep); |r| > 0 && r[|r| - 1] == sep[|sep| - 1]
    decreases |s|
  {
    if IsWs(s[0]) {
      var t := s[SkipWs(s, 0)..];
      if |t| > 0 {
        assert t[|t| - 1] == s[|s| - 1];
        ReplaceEndsWithSep(t, sep);
      }
    } else {
      assert s[1..][|s| - 2] == s[|s| - 1];
      ReplaceEndsWithSep(s[1..], sep);
    }
  }

  /** An inner space becomes `-`. */
  lemma DeriveIdInnerSpace()
    ensures DeriveId("Node JS") == "node-js"
  {
    LowerNodeJs();
    ReplaceNodeJs();
  }

  lemma ReplaceNodeJs()
    ensures ReplaceWsRuns("node js", "-") == "node-js"
  {
    ReplaceOneSpace("node", "js");
    assert "node" + " " + "js" == "node js";
    assert "node" + "-" + "js" == "node-js";
  }

  /** Leading whitespace becomes `-` too, since the id is derived before trimming. */
  lemma DeriveIdLeadingSpace()
    ensures DeriveId("  Go") == "-go"
  {
    LowerGo();
    var g := "  go";
    assert SkipWs(g, 0) == 2;
    assert g[2..] == "go";
    ReplaceWsRunsIdentity("go", "-");
  }

  lemma LowerNodeJs()
    ensures Lower("Node JS") == "node js"
  {
    assert Lower("JS") == "js" by { assert "JS"[1..] == "S"; }
    assert Lower(" JS") == " js" by { assert " JS"[1..] == "JS"; }
    assert Lower("e JS") == "e js" by { assert "e JS"[1..] == " JS"; }
    assert Lower("de JS") == "de js" by { assert "de JS"[1..] == "e JS"; }
    assert Lower("ode JS") == "ode js" by { assert "ode JS"[1..] == "de JS"; }
    assert "Node JS"[1..] == "ode JS";
  }

  lemma LowerGo()
    ensures Lower("  Go") == "  go"
  {
    assert Lower("Go") == "go" by { assert "Go"[1..] == "o"; }
    assert "  Go"[1..] == " Go" && " Go"[1..] == "Go";
  }

  /** Two words joined by a single space come out joined by `-`. */
  lemma ReplaceOneSpace(a: string, b: string)
    requires NoWs(a) && NoWs(b) && |b| > 0
    ensures ReplaceWsRuns(a + " " + b, "-") == a + "-" + b
  {
    assert forall c :: c in a ==> !IsWs(c);
    ReplacePrefixNoWs(a, " " + b);
    var t := " " + b;
    assert SkipWs(t, 0) == 1;
    assert t[1..] == b;
    ReplaceWsRunsIdentity(b, "-");
    assert a + " " + b == a + t;
  }

  lemma {:induction false} ReplacePrefixNoWs(a: string, t: string)
    requires forall c :: c in a ==> !IsWs(c)
    ensures ReplaceWsRuns(a + t, "-") == a + ReplaceWsRuns(t, "-")
    decreases |a|
  {
    if |a| == 0 {
      assert a + t == t;
    } else {
      var c, a' := a[0], a[1..];
      assert a == [c] + a';
      assert a + t == [c] + (a' + t);
      assert c in a;
      ReplacePrefixNoWs(a', t);
      ReplaceCons(c, a' + t);
    }
  }

  lemma ReplaceCons(c: char, t: string)
    requires !IsWs(c)
    ensures ReplaceWsRuns([c] + t, "-") == [c] + ReplaceWsRuns(t, "-")
  {
    assert ([c] + t)[1..] == t;
  }

  /** The form's state: the text field and the two selections. */
  datatype InputState = InputState(
    newSkillName: string,
    selectedCategory: string,
    selectedProficiency: Level)

  /** The form as first shown: empty name, category "Programming", proficiency
      intermediate. */
  const InitialInput: InputState := InputState("", "Programming", Intermediate)

  /** The outcome of pressing Add: the skill handed to the application, if any, and the
      form state afterwards. */
  datatype AddResult = AddResult(added: Option<Skill>, next: InputState)

  /** `handleAddSkill` of the form. A blank name adds nothing and leaves the form as it
      was; otherwise the skill carries the trimmed name, the derived id and the current
      selections, and the text field is cleared. */
  function SubmitSkill(st: InputState): (r: AddResult)
    ensures r.added.None? <==> IsBlank(st.newSkillName)
    ensures r.added.None? ==> r.next == st
    ensures r.added.Some? ==>
      var s := r.added.value;
      && s.name == Trim(st.newSkillName)
      && |s.name| > 0 && !IsWs(s.name[0]) && !IsWs(s.name[|s.name| - 1])
      && s.id == DeriveId(st.newSkillName) && |s.id| > 0 && NoWs(s.id)
      && s.category == st.selectedCategory
      && s.proficiency == Some(st.selectedProficiency)
      && s.isRequired.None?
      && r.next == st.(newSkillName := "")
  {
    var name := st.newSkillName;
    var t := Trim(name);
    if |t| > 0 then
      var id := DeriveId(name);
      assert |name| > 0;
      AddResult(Some(Skill(id, t, st.selectedCategory, Some(st.selectedProficiency), None)),
        st.(newSkillName := ""))
    else
      AddResult(None, st)
  }

  /** Typing a name into the fresh form and pressing Add gives a skill in category
      "Programming" at proficiency intermediate. */
  lemma SubmitFromInitial(name: string)
    requires !IsBlank(name)
    ensures var r := SubmitSkill(InitialInput.(newSkillName := name));
      && r.added.Some?
      && r.added.value.category == "Programming"
      && r.added.value.proficiency == Some(Intermediate)
      && r.next == InitialInput
  {
  }
}
