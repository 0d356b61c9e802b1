/**
 * Corrected versions of two `ExtraInfo` queries, following the class's own
 * policy that every failure becomes the sentinel and nothing reaches the
 * caller as an exception:
 *  - `getProp` compares the trimmed line with `"[]"` by content, and an
 *    empty command output gives the sentinel instead of an escaping
 *    `IndexOutOfBoundsException`;
 *  - the field lookup skips a colon-less line instead of reading the value
 *    part it does not have.
 * Each is related to the as-written model in `ExtraInfo` by a lemma saying
 * that the two agree wherever the as-written code already behaves as meant.
 */
module ExtraInfoIntended {
  import opened JavaStrings
  import opened ExtraInfo

  /** `getProp` as evidently intended: never throws and never shows `[]`. */
  function GetPropIntended(prop: JString, shell: Shell): (r: string)
    ensures r != "[]"
    ensures Trimmed(r)
    ensures IsNullOrEmpty(prop) ==> r == Unknown
    ensures !IsNullOrEmpty(prop) && shell(PropCommand(prop.text)) == Output([]) ==> r == Unknown
  {
    if IsNullOrEmpty(prop) then Unknown
    else
      match shell(PropCommand(prop.text))
      case Failed(_) => Unknown
      case Output(lines) =>
        if lines == [] then Unknown
        else
          var s := Trim(lines[0]);
          TrimTrimmed(lines[0]);
          if s == "[]" then Unknown else s
  }

  /**
   * Where the as-written `getProp` returns something other than `[]`, the
   * corrected one returns the same; where it throws, the corrected one
   * gives the sentinel.
   */
  lemma GetPropIntendedAgrees(prop: JString, shell: Shell)
    ensures GetProp(prop, shell).Returned? && GetProp(prop, shell).value != "[]" ==>
              GetPropIntended(prop, shell) == GetProp(prop, shell).value
    ensures GetProp(prop, shell).Threw? ==> GetPropIntended(prop, shell) == Unknown
  {
  }

  /** A printed `[]` is shown as the sentinel, as the guard in `getProp` means. */
  lemma GetPropIntendedHidesBrackets(name: string, rest: seq<string>, shell: Shell)
    requires name != []
    requires shell(PropCommand(name)) == Output(["[]"] + rest)
    ensures GetPropIntended(Str(name), shell) == Unknown
  {
    TrimOfTrimmed("[]");
  }

  /** The field lookup as evidently intended: colon-less lines are skipped. */
  function FindFieldIntended(lines: seq<string>, field: string): (r: string)
    ensures Trimmed(r)
  {
    if lines == [] then Unknown
    else
      var parts := SplitOnce(lines[0], ':');
      if |parts| == 2 && Trim(parts[0]) == field then
        TrimTrimmed(parts[1]);
        Trim(parts[1])
      else FindFieldIntended(lines[1..], field)
  }

  /**
   * Wherever the as-written lookup returns, the corrected one returns the
   * same value: the two differ only where the as-written one throws.
   */
  lemma {:induction false} FindFieldIntendedAgrees(lines: seq<string>, field: string)
    requires FindField(lines, field).Returned?
    ensures FindFieldIntended(lines, field) == FindField(lines, field).value
  {
    if lines != [] && Trim(SplitOnce(lines[0], ':')[0]) != field {
      FindFieldIntendedAgrees(lines[1..], field);
    }
  }

  /** When no line has both a colon and a matching key, the corrected lookup gives the sentinel. */
  lemma {:induction false} FindFieldIntendedNoHit(lines: seq<string>, field: string)
    requires forall j :: 0 <= j < |lines| ==> !(':' in lines[j] && KeyMatches(lines[j], field))
    ensures FindFieldIntended(lines, field) == Unknown
  {
    if lines != [] {
      assert !(':' in lines[0] && KeyMatches(lines[0], field));
      var tail := lines[1..];
      forall j | 0 <= j < |tail|
        ensures !(':' in tail[j] && KeyMatches(tail[j], field))
      {
        assert tail[j] == lines[j + 1];
      }
      FindFieldIntendedNoHit(tail, field);
    }
  }

  /** A colon-less line that names the field is passed over, not fatal. */
  lemma FindFieldIntendedSkipsBareKey(line: string, rest: seq<string>, field: string)
    requires ':' !in line
    ensures FindFieldIntended([line] + rest, field) == FindFieldIntended(rest, field)
  {
    assert ([line] + rest)[1..] == rest;
  }

  /** The corrected lookup returns the value of the first line that has a colon and a matching key. */
  lemma {:induction false} FindFieldIntendedFirstColonHit(lines: seq<string>, field: string, i: int, prefix: string, suffix: string)
    requires 0 <= i < |lines|
    requires forall j :: 0 <= j < i ==> !(':' in lines[j] && KeyMatches(lines[j], field))
    requires lines[i] == prefix + ":" + suffix && ':' !in prefix && Trim(prefix) == field
    ensures FindFieldIntended(lines, field) == Trim(suffix)
  {
    if i == 0 {
      SplitOnceAt(prefix, ':', suffix);
    } else {
      assert !(':' in lines[0] && KeyMatches(lines[0], field));
      var tail := lines[1..];
      forall j | 0 <= j < i - 1
        ensures !(':' in tail[j] && KeyMatches(tail[j], field))
      {
        assert tail[j] == lines[j + 1];
      }
      FindFieldIntendedFirstColonHit(tail, field, i - 1, prefix, suffix);
    }
  }
}
