/** Reading the output of `pip freeze` into a map from package name to pinned
    version, the way building a dictionary from each line split at `==` does:
    every line must split into exactly two fields, the first failing line
    raises, and a name that occurs twice keeps the version of its last line. */
module Freeze {
  import opened Text
  import opened Errors

  type Versions = map<string, string>

  /** A line `dict()` accepts: exactly one `==` separates name and version. */
  predicate Pinned(line: string) {
    |Split(line, "==")| == 2
  }

  /** The key a freeze line contributes. */
  function Name(line: string): string {
    Split(line, "==")[0]
  }

  /** The value a freeze line contributes. */
  function Version(line: string): string
    requires Pinned(line)
  {
    Split(line, "==")[1]
  }

  /** Line `j` is the last one among `lines` that names its package. */
  predicate LastFor(lines: seq<string>, j: nat)
    requires j < |lines|
  {
    forall k :: j < k < |lines| ==> Name(lines[k]) != Name(lines[j])
  }

  /** The names of the lines from index `i` on. */
  function NamesFrom(lines: seq<string>, i: nat): set<string> {
    set j | i <= j < |lines| :: Name(lines[j])
  }

  lemma NamesFromStep(lines: seq<string>, i: nat)
    requires i < |lines|
    ensures NamesFrom(lines, i) == NamesFrom(lines, i + 1) + {Name(lines[i])}
  {
    forall x | x in NamesFrom(lines, i)
      ensures x in NamesFrom(lines, i + 1) + {Name(lines[i])}
    {
      var j :| i <= j < |lines| && x == Name(lines[j]);
      if j > i {
        assert x in NamesFrom(lines, i + 1);
      }
    }
  }

  /** `dict()` fed the lines from index `i` on, on top of the entries `acc`
      already collected.  It succeeds exactly when every remaining line is
      pinned; otherwise it reports the first line that is not, with the number
      of fields it split into.  What the successful map holds is stated by
      `CollectKeys` and `CollectValues`. */
  function Collect(lines: seq<string>, i: nat, acc: Versions): (r: Result<Versions>)
    requires i <= |lines|
    ensures r.Ok? <==> forall j :: i <= j < |lines| ==> Pinned(lines[j])
    ensures r.Err? ==>
      && r.error.FreezeLine?
      && i <= r.error.index < |lines|
      && !Pinned(lines[r.error.index])
      && r.error.parts == |Split(lines[r.error.index], "==")|
      && forall j :: i <= j < r.error.index ==> Pinned(lines[j])
    decreases |lines| - i
  {
    if i == |lines| then Ok(acc)
    else
      var parts := Split(lines[i], "==");
      if |parts| != 2 then Err(FreezeLine(i, |parts|))
      else Collect(lines, i + 1, acc[parts[0] := parts[1]])
  }

  /** The keys of a successful read are the entries already collected plus the
      names of the lines. */
  lemma {:induction false} CollectKeys(lines: seq<string>, i: nat, acc: Versions)
    requires i <= |lines| && Collect(lines, i, acc).Ok?
    ensures Collect(lines, i, acc).value.Keys == acc.Keys + NamesFrom(lines, i)
    decreases |lines| - i
  {
    if i < |lines| {
      NamesFromStep(lines, i);
      CollectKeys(lines, i + 1, acc[Name(lines[i]) := Version(lines[i])]);
    }
  }

  /** Each name maps to the version on the last line naming it; entries no
      line names keep their old version. */
  lemma {:induction false} CollectValues(lines: seq<string>, i: nat, acc: Versions)
    requires i <= |lines| && Collect(lines, i, acc).Ok?
    ensures var v := Collect(lines, i, acc).value;
      forall j :: i <= j < |lines| && LastFor(lines, j) ==>
        Name(lines[j]) in v && v[Name(lines[j])] == Version(lines[j])
    ensures var v := Collect(lines, i, acc).value;
      forall k :: k in acc && k !in NamesFrom(lines, i) ==> k in v && v[k] == acc[k]
    decreases |lines| - i
  {
    if i < |lines| {
      var acc' := acc[Name(lines[i]) := Version(lines[i])];
      assert Collect(lines, i, acc) == Collect(lines, i + 1, acc');
      NamesFromStep(lines, i);
      CollectValues(lines, i + 1, acc');
      var v := Collect(lines, i, acc).value;
      forall j | i <= j < |lines| && LastFor(lines, j)
        ensures Name(lines[j]) in v && v[Name(lines[j])] == Version(lines[j])
      {
        if j == i {
          assert Name(lines[i]) !in NamesFrom(lines, i + 1);
        }
      }
      forall k | k in acc && k !in NamesFrom(lines, i)
        ensures k in v && v[k] == acc[k]
      {
        assert k != Name(lines[i]);
      }
    }
  }

  /** The package versions read from the text `pip freeze` prints. */
  function ParseFreeze(output: string): (r: Result<Versions>)
    ensures var lines := SplitLines(output);
      && (r.Ok? <==> forall j :: 0 <= j < |lines| ==> Pinned(lines[j]))
      && (r.Ok? ==> r.value.Keys == NamesFrom(lines, 0))
  {
    var lines := SplitLines(output);
    var r := Collect(lines, 0, map[]);
    if r.Ok? then CollectKeys(lines, 0, map[]); r else r
  }

  /** One installed distribution as `pip freeze` reports it. */
  datatype Pin = Pin(name: string, version: string)

  /** A name or version as it appears in a freeze line: no `=` and no line
      boundary. */
  predicate Plain(s: string) {
    '=' !in s && NoLineBreak(s)
  }

  function Render(p: Pin): string {
    p.name + "==" + p.version
  }

  function RenderAll(pins: seq<Pin>): (r: seq<string>)
    ensures |r| == |pins|
    ensures forall j :: 0 <= j < |pins| ==> r[j] == Render(pins[j])
  {
    if pins == [] then [] else [Render(pins[0])] + RenderAll(pins[1..])
  }

  /** The text `pip freeze` prints for the given distributions, one per line. */
  function FreezeOutput(pins: seq<Pin>): string {
    Lines(RenderAll(pins))
  }

  /** A rendered pin splits back into its name and version. */
  lemma SplitRender(p: Pin)
    requires Plain(p.name) && Plain(p.version)
    ensures Split(Render(p), "==") == [p.name, p.version]
  {
    assert "=="[0] == '=';
    SplitField(p.name, p.version, "==");
    SplitWhole(p.version, "==");
  }

  lemma RenderNoLineBreak(p: Pin)
    requires Plain(p.name) && Plain(p.version)
    ensures NoLineBreak(Render(p))
  {
    var s := Render(p);
    forall k | 0 <= k < |s|
      ensures !IsLineBreak(s[k])
    {
      if k < |p.name| {
        assert s[k] == p.name[k];
      } else if k >= |p.name| + 2 {
        assert s[k] == p.version[k - |p.name| - 2];
      }
    }
  }

  /** Reading freeze output back: distributions with distinct plain names and
      versions give a map from exactly those names to their versions. */
  lemma FreezeRoundTrip(pins: seq<Pin>)
    requires forall j :: 0 <= j < |pins| ==> Plain(pins[j].name) && Plain(pins[j].version)
    requires forall j, k :: 0 <= j < k < |pins| ==> pins[j].name != pins[k].name
    ensures ParseFreeze(FreezeOutput(pins)).Ok?
    ensures ParseFreeze(FreezeOutput(pins)).value.Keys == set j | 0 <= j < |pins| :: pins[j].name
    ensures forall j :: 0 <= j < |pins| ==>
      ParseFreeze(FreezeOutput(pins)).value[pins[j].name] == pins[j].version
  {
    var lines := RenderAll(pins);
    forall j | 0 <= j < |lines|
      ensures NoLineBreak(lines[j])
    {
      RenderNoLineBreak(pins[j]);
    }
    SplitLinesOfLines(lines);
    forall j | 0 <= j < |lines|
      ensures Pinned(lines[j]) && Name(lines[j]) == pins[j].name && Version(lines[j]) == pins[j].version
    {
      SplitRender(pins[j]);
    }
    var r := Collect(lines, 0, map[]);
    CollectValues(lines, 0, map[]);
    assert NamesFrom(lines, 0) == set j | 0 <= j < |pins| :: pins[j].name;
    forall j | 0 <= j < |pins|
      ensures pins[j].name in r.value && r.value[pins[j].name] == pins[j].version
    {
      assert LastFor(lines, j);
    }
  }

  /** A line with no `==` at all (an editable or direct-reference install,
      say) makes the whole read fail at that line. */
  lemma UnpinnedLineFails(before: seq<Pin>, line: string, after: string)
    requires forall j :: 0 <= j < |before| ==> Plain(before[j].name) && Plain(before[j].version)
    requires Plain(line)
    ensures ParseFreeze(FreezeOutput(before) + line + "\n" + after) == Err(FreezeLine(|before|, 1))
  {
    var lines := RenderAll(before);
    forall j | 0 <= j < |lines|
      ensures NoLineBreak(lines[j])
    {
      RenderNoLineBreak(before[j]);
    }
    forall j | 0 <= j < |lines|
      ensures Pinned(lines[j])
    {
      SplitRender(before[j]);
    }
    var all := lines + [line];
    forall j | 0 <= j < |all|
      ensures NoLineBreak(all[j])
    {
    }
    LinesAppend(lines, line, after);
    SplitLinesPrefix(all, after);
    var ls := SplitLines(FreezeOutput(before) + line + "\n" + after);
    assert ls[..|all|] == all;
    assert "=="[0] == '=';
    SplitWhole(line, "==");
    assert ls[|before|] == line;
    var r := Collect(ls, 0, map[]);
    assert !Pinned(ls[|before|]);
  }
}
