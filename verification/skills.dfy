/** The skills box parsing `[s.strip() for s in skills_input.split(",")]`
    (app.py:502). */
module Skills {
  import opened Text
  import Splitting

  /** The skill list typed as comma-separated text: one entry per piece
      between commas, each with its surrounding whitespace removed. */
  function ParseSkills(input: string): (skills: seq<string>)
    ensures |skills| == Splitting.Count(input, ',') + 1
    ensures forall i :: 0 <= i < |skills| ==> Stripped(skills[i])
  {
    var pieces := Splitting.SplitOn(input, ',');
    seq(|pieces|, i requires 0 <= i < |pieces| => Strip(pieces[i]))
  }

  /** Each entry is the stripped piece at the same position of the split. */
  lemma ParseSkillsPieces(input: string)
    ensures forall i :: 0 <= i < |ParseSkills(input)| ==>
              ParseSkills(input)[i] == Strip(Splitting.SplitOn(input, ',')[i])
  {
  }

  /** No entry holds a comma: a stripped piece is an infix of a comma-free
      piece. */
  lemma ParsedCommaFree(input: string)
    ensures forall i :: 0 <= i < |ParseSkills(input)| ==> ',' !in ParseSkills(input)[i]
  {
    var pieces := Splitting.SplitOn(input, ',');
    forall i | 0 <= i < |pieces|
      ensures ',' !in Strip(pieces[i])
    {
      StripKeepsAbsent(pieces[i], ',');
    }
  }

  /** Parsing the comma-joined list gives the list back exactly when every
      entry is stripped and comma-free. */
  lemma ParseJoin(skills: seq<string>)
    requires |skills| >= 1
    ensures ParseSkills(Splitting.Join(skills, ',')) == skills <==>
              forall i :: 0 <= i < |skills| ==> Stripped(skills[i]) && ',' !in skills[i]
  {
    var text := Splitting.Join(skills, ',');
    if forall i :: 0 <= i < |skills| ==> Stripped(skills[i]) && ',' !in skills[i] {
      Splitting.SplitJoin(skills, ',');
      forall i | 0 <= i < |skills|
        ensures Strip(skills[i]) == skills[i]
      {
        StripFixpoint(skills[i]);
      }
    } else {
      ParsedCommaFree(text);
    }
  }

  /** Parsing is idempotent on its own output, re-joined with commas. */
  lemma ParseReparse(input: string)
    ensures ParseSkills(Splitting.Join(ParseSkills(input), ',')) == ParseSkills(input)
  {
    ParsedCommaFree(input);
    ParseJoin(ParseSkills(input));
  }

  /** A blank skills box parses to one empty skill, not to an empty list. */
  lemma BlankInputIsOneEmptySkill(input: string)
    requires AllSpace(input)
    ensures ParseSkills(input) == [""]
  {
    assert ',' !in input by {
      forall k | 0 <= k < |input|
        ensures input[k] != ','
      {
        assert IsSpace(input[k]);
      }
    }
    Splitting.SplitNoSep(input, ',');
    StripBlank(input);
    var r := ParseSkills(input);
    assert |r| == 1 && r[0] == "";
  }

  /** Three comma-free pieces joined with commas split back into them. */
  lemma SplitThree(a: string, m: string, b: string)
    requires ',' !in a && ',' !in m && ',' !in b
    ensures Splitting.SplitOn(a + [','] + m + [','] + b, ',') == [a, m, b]
  {
    assert [a, m, b][1..] == [m, b];
    assert [m, b][1..] == [b];
    assert Splitting.Join([m, b], ',') == m + [','] + b;
    assert Splitting.Join([a, m, b], ',') == a + [','] + m + [','] + b;
    Splitting.SplitJoin([a, m, b], ',');
  }

  /** A blank piece between commas yields an empty skill: "a, ,b" parses to
      "a", "" and "b". */
  lemma BlankPieceIsEmptySkill(a: string, blank: string, b: string)
    requires Stripped(a) && ',' !in a
    requires AllSpace(blank)
    requires Stripped(b) && ',' !in b
    ensures ParseSkills(a + [','] + blank + [','] + b) == [a, "", b]
  {
    assert ',' !in blank by {
      forall k | 0 <= k < |blank|
        ensures blank[k] != ','
      {
        assert IsSpace(blank[k]);
      }
    }
    var text := a + [','] + blank + [','] + b;
    SplitThree(a, blank, b);
    var r := ParseSkills(text);
    ParseSkillsPieces(text);
    assert |r| == 3;
    assert r[0] == Strip(a) && r[1] == Strip(blank) && r[2] == Strip(b);
    StripFixpoint(a);
    StripFixpoint(b);
    StripBlank(blank);
    ThreeEntries(r, a, "", b);
  }

  /** A three-element sequence is the display of its elements. */
  lemma ThreeEntries<T>(r: seq<T>, x: T, y: T, z: T)
    requires |r| == 3 && r[0] == x && r[1] == y && r[2] == z
    ensures r == [x, y, z]
  {
  }
}
