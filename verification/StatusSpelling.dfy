/** The edits of `StatusWrites`, character by character. */
module StatusSpelling {
  import opened StatusWrites

  predicate Starts(line: string, text: string) {
    |line| >= |text| && forall i :: 0 <= i < |text| ==> line[i] == text[i]
  }

  predicate Continues(line: string) {
    |line| > 0 && (line[0] == ' ' || line[0] == '\t')
  }

  lemma SameStart(line: string)
    ensures HasPrefix(line, STATUS) <==> Starts(line, "status:")
    ensures HasPrefix(line, CONTAMINATION) <==> Starts(line, "contamination:")
    ensures Indented(line) <==> Continues(line)
  {
  }

  /**
   The contamination edit: the first line that starts with the key goes, with the lines under it
   that start with a blank or a tab; without such a line the new one follows the first status line.
   */
  lemma ContaminationSpelled(lines: seq<string>, c: string) returns (i: nat, m: nat)
    requires HasStatus(lines)
    ensures i <= m <= |lines| && SetContamination(lines, c) == lines[..i] + [c] + lines[m..]
    ensures if exists l :: l in lines && Starts(l, "contamination:") then
              && i < m && Starts(lines[i], "contamination:") && (forall k :: 0 <= k < i ==> !Starts(lines[k], "contamination:"))
              && (forall k :: i < k < m ==> Continues(lines[k])) && (m < |lines| ==> !Continues(lines[m]))
            else
              && i == m > 0 && Starts(lines[i - 1], "status:") && (forall k :: 0 <= k < i - 1 ==> !Starts(lines[k], "status:"))
  {
    hide First, RunEnd, HasPrefix, Starts, Indented, Continues;
    SameStarts();
    FirstProps(lines, CONTAMINATION);
    FirstProps(lines, STATUS);
    if HasBlock(lines) {
      i := First(lines, CONTAMINATION);
      m := RunEnd(lines, i + 1);
      RunEndProps(lines, i + 1);
      assert lines[i] in lines;
    } else {
      i := First(lines, STATUS) + 1;
      m := i;
    }
  }

  lemma SameStarts()
    ensures forall l :: HasPrefix(l, STATUS) <==> Starts(l, "status:")
    ensures forall l :: HasPrefix(l, CONTAMINATION) <==> Starts(l, "contamination:")
    ensures forall l :: Indented(l) <==> Continues(l)
  {
    forall l
      ensures HasPrefix(l, STATUS) <==> Starts(l, "status:")
      ensures HasPrefix(l, CONTAMINATION) <==> Starts(l, "contamination:")
      ensures Indented(l) <==> Continues(l)
    {
      SameStart(l);
    }
  }

  /** The status edit replaces the first line that starts with the key, and no other. */
  lemma StatusSpelled(lines: seq<string>, s: string) returns (i: nat)
    requires HasStatus(lines)
    ensures i < |lines| && SetStatus(lines, s) == lines[..i] + [s] + lines[i + 1..]
    ensures Starts(lines[i], "status:") && forall k :: 0 <= k < i ==> !Starts(lines[k], "status:")
  {
    i := First(lines, STATUS);
    FirstProps(lines, STATUS);
    forall l ensures HasPrefix(l, STATUS) <==> Starts(l, "status:") { SameStart(l); }
    hide First, HasPrefix, Starts;
  }
}
