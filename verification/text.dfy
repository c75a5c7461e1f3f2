/** The handful of Python `str` operations the scaffolder's decision logic
    relies on: `strip`, `upper`, `capitalize`, `split`, `join`,
    `splitlines` and the `{project_name}` placeholder substitution done by
    `str.format`.  Each is written as a pure function over `seq<char>`, with
    its characterising contract and the round-trip lemmas the rest of the
    model uses. */
module Text {

  /** Python's `str.isspace()` for one character: the characters
      `str.strip()` removes from both ends. */
  predicate IsSpace(c: char) {
    || c == ' ' || '\t' <= c <= '\r' || '\U{1C}' <= c <= '\U{1F}'
    || c == '\U{85}' || c == '\U{A0}' || c == '\U{1680}' || '\U{2000}' <= c <= '\U{200A}'
    || c == '\U{2028}' || c == '\U{2029}' || c == '\U{202F}' || c == '\U{205F}' || c == '\U{3000}'
  }

  /** The line boundaries recognised by Python's `str.splitlines()`
      (a `\r\n` pair counts as one boundary). */
  predicate IsLineBreak(c: char) {
    || '\n' <= c <= '\r' || '\U{1C}' <= c <= '\U{1E}'
    || c == '\U{85}' || c == '\U{2028}' || c == '\U{2029}'
  }

  /** A string `strip()` leaves alone: it neither starts nor ends with whitespace. */
  predicate IsStripped(s: string) {
    s == [] || (!IsSpace(s[0]) && !IsSpace(s[|s| - 1]))
  }

  /** The first index at or after `i` that does not hold whitespace (or `|s|`). */
  function SkipSpace(s: string, i: nat): (r: nat)
    requires i <= |s|
    ensures i <= r <= |s|
    ensures forall k :: i <= k < r ==> IsSpace(s[k])
    ensures r < |s| ==> !IsSpace(s[r])
    decreases |s| - i
  {
    if i < |s| && IsSpace(s[i]) then SkipSpace(s, i + 1) else i
  }

  /** The smallest `r` in `lo..j` such that `s[r..j]` is all whitespace. */
  function SkipSpaceBack(s: string, lo: nat, j: nat): (r: nat)
    requires lo <= j <= |s|
    ensures lo <= r <= j
    ensures forall k :: r <= k < j ==> IsSpace(s[k])
    ensures r > lo ==> !IsSpace(s[r - 1])
  {
    if j > lo && IsSpace(s[j - 1]) then SkipSpaceBack(s, lo, j - 1) else j
  }

  /** How many whitespace characters `strip()` removes from the front of `s`. */
  function Leading(s: string): (n: nat)
    ensures n <= |s|
    ensures forall k :: 0 <= k < n ==> IsSpace(s[k])
    ensures n < |s| ==> !IsSpace(s[n])
  {
    SkipSpace(s, 0)
  }

  /** Python's `str.strip()`: the infix of `s` left after removing whitespace
      from both ends, which neither starts nor ends with whitespace. */
  function Strip(s: string): (r: string)
    ensures IsStripped(r)
    ensures Leading(s) + |r| <= |s| && r == s[Leading(s)..Leading(s) + |r|]
    ensures forall i :: 0 <= i < Leading(s) ==> IsSpace(s[i])
    ensures forall i :: Leading(s) + |r| <= i < |s| ==> IsSpace(s[i])
  {
    var lo := Leading(s);
    var hi := SkipSpaceBack(s, lo, |s|);
    s[lo..hi]
  }

  /** Removing whitespace from a string that has none at its ends changes nothing. */
  lemma StripOfStripped(s: string)
    requires IsStripped(s)
    ensures Strip(s) == s
  {
    if s != [] {
      assert Leading(s) == 0;
      assert SkipSpaceBack(s, 0, |s|) == |s|;
    }
  }

  /** The field produced by splitting `", "`-joined text on `","`: the
      leading blank is stripped away again. */
  lemma StripOfSpaced(s: string)
    requires IsStripped(s)
    ensures Strip(" " + s) == s
  {
    var t := " " + s;
    assert SkipSpace(t, 0) == SkipSpace(t, 1) == 1;
    assert SkipSpaceBack(t, 1, |t|) == |t|;
    assert t[1..|t|] == s;
  }

  /** A stripped name with one space on each side strips back to the name. */
  lemma StripPadded(x: string)
    requires x != "" && IsStripped(x)
    ensures Strip(" " + x + " ") == x
  {
    var s := " " + x + " ";
    var r := Strip(s);
    assert IsSpace(s[0]) && !IsSpace(s[1]);
    assert Leading(s) == 1;
    assert s[1..1 + |x|] == x;
  }

  /** Stripping removes any whitespace around a stripped string, whatever its
      length and kind (blanks, tabs, line breaks). */
  lemma StripSurrounded(a: string, x: string, b: string)
    requires forall i :: 0 <= i < |a| ==> IsSpace(a[i])
    requires forall i :: 0 <= i < |b| ==> IsSpace(b[i])
    requires IsStripped(x)
    ensures Strip(a + x + b) == x
  {
    var s := a + x + b;
    var r := Strip(s);
    var n := Leading(s);
    assert forall k :: 0 <= k < |a| ==> s[k] == a[k];
    assert forall k :: 0 <= k < |b| ==> s[|a| + |x| + k] == b[k];
    if x == [] {
      assert forall k :: 0 <= k < |s| ==> IsSpace(s[k]);
    } else {
      assert s[|a|] == x[0];
      assert s[|a| + |x| - 1] == x[|x| - 1];
      assert n == |a|;
      assert |r| == |x|;
      assert s[|a|..|a| + |x|] == x;
    }
  }

  /** Stripping only removes characters, so a character absent from the input is
      absent from the result. */
  lemma StripKeepsOut(s: string, c: char)
    requires c !in s
    ensures c !in Strip(s)
  {
    var r := Strip(s);
    var i := Leading(s);
    assert forall k :: 0 <= k < |r| ==> r[k] == s[i + k];
  }

  /** Python's `str.upper()` restricted to ASCII letters. */
  function UpperChar(c: char): char {
    if 'a' <= c <= 'z' then (c as int - 32) as char else c
  }

  function LowerChar(c: char): char {
    if 'A' <= c <= 'Z' then (c as int + 32) as char else c
  }

  function Upper(s: string): (r: string)
    ensures |r| == |s|
    ensures forall i :: 0 <= i < |s| ==> r[i] == UpperChar(s[i])
  {
    if s == [] then [] else [UpperChar(s[0])] + Upper(s[1..])
  }

  function Lower(s: string): (r: string)
    ensures |r| == |s|
    ensures forall i :: 0 <= i < |s| ==> r[i] == LowerChar(s[i])
  {
    if s == [] then [] else [LowerChar(s[0])] + Lower(s[1..])
  }

  /** Python's `str.capitalize()`: first character upper case, the rest lower case. */
  function Capitalize(s: string): (r: string)
    ensures |r| == |s|
    ensures |s| > 0 ==> r[0] == UpperChar(s[0]) && r[1..] == Lower(s[1..])
  {
    if s == [] then [] else [UpperChar(s[0])] + Lower(s[1..])
  }

  /** Two characters with the same upper-case form have the same lower-case
      form. */
  lemma SameCaseClass(c: char, d: char)
    requires UpperChar(c) == UpperChar(d)
    ensures LowerChar(c) == LowerChar(d)
  {
  }

  /** `capitalize()` looks only at the case-folded form: names that differ
      only in letter case capitalise alike. */
  lemma CapitalizeIgnoresCase(a: string, b: string)
    requires Upper(a) == Upper(b)
    ensures Capitalize(a) == Capitalize(b)
  {
    if a != [] {
      assert UpperChar(a[0]) == Upper(a)[0] == Upper(b)[0] == UpperChar(b[0]);
      forall i | 1 <= i < |a|
        ensures LowerChar(a[i]) == LowerChar(b[i])
      {
        assert Upper(a)[i] == Upper(b)[i];
        SameCaseClass(a[i], b[i]);
      }
      assert Lower(a[1..]) == Lower(b[1..]);
    }
  }

  /** `capitalize()` keeps the letters, changing only their case. */
  lemma CapitalizeKeepsLetters(s: string)
    ensures Upper(Capitalize(s)) == Upper(s)
  {
    var r := Capitalize(s);
    forall i | 0 <= i < |s|
      ensures UpperChar(r[i]) == UpperChar(s[i])
    {
      if i > 0 {
        assert r[i] == Lower(s[1..])[i - 1] == LowerChar(s[i]);
      }
    }
  }

  /** Capitalising a capitalised name changes nothing. */
  lemma CapitalizeIdempotent(s: string)
    ensures Capitalize(Capitalize(s)) == Capitalize(s)
  {
    CapitalizeKeepsLetters(s);
    CapitalizeIgnoresCase(Capitalize(s), s);
  }

  /** Upper-casing neither creates nor removes whitespace. */
  lemma UpperCharSpace(c: char)
    ensures IsSpace(UpperChar(c)) <==> IsSpace(c)
  {
    if 'a' <= c <= 'z' {
      assert 'A' <= UpperChar(c) <= 'Z';
    }
  }

  /** Upper-casing a stripped string leaves it stripped, and never introduces
      a comma. */
  lemma UpperKeepsForm(x: string)
    ensures IsStripped(x) ==> IsStripped(Upper(x))
    ensures ',' !in x ==> ',' !in Upper(x)
  {
    if x != [] {
      UpperCharSpace(x[0]);
      UpperCharSpace(x[|x| - 1]);
    }
  }

  /** Upper-casing twice is the same as once: the case-folded form is a fixed point. */
  lemma UpperIdempotent(s: string)
    ensures Upper(Upper(s)) == Upper(s)
  {
  }

  /** Python's `sep.join(parts)`. */
  function Join(parts: seq<string>, sep: string): string {
    if |parts| == 0 then ""
    else if |parts| == 1 then parts[0]
    else parts[0] + sep + Join(parts[1..], sep)
  }

  /** Concatenation of a sequence of strings (Python's `"".join`). */
  function Concat(parts: seq<string>): string {
    if parts == [] then "" else parts[0] + Concat(parts[1..])
  }

  lemma ConcatAppend(a: seq<string>, b: seq<string>)
    ensures Concat(a + b) == Concat(a) + Concat(b)
  {
    if a == [] {
      assert a + b == b;
    } else {
      assert (a + b)[0] == a[0];
      assert (a + b)[1..] == a[1..] + b;
      ConcatAppend(a[1..], b);
      calc {
        Concat(a + b);
        a[0] + Concat(a[1..] + b);
        a[0] + (Concat(a[1..]) + Concat(b));
        (a[0] + Concat(a[1..])) + Concat(b);
      }
    }
  }

  lemma JoinConsHead(c: char, parts: seq<string>, sep: string)
    requires |parts| >= 1
    ensures Join([[c] + parts[0]] + parts[1..], sep) == [c] + Join(parts, sep)
  {
    var q := [[c] + parts[0]] + parts[1..];
    if |parts| > 1 {
      assert q[1..] == parts[1..];
    }
  }

  /** Python's `s.split(sep)`: cuts `s` at each occurrence of `sep`, scanning
      left to right, and keeps every field, empty ones included.  Joining the
      fields with `sep` gives `s` back (`JoinSplit`), and a one-character
      separator never occurs inside a field (`SplitFieldsFree`). */
  function Split(s: string, sep: string): (r: seq<string>)
    requires |sep| > 0
    ensures |r| >= 1
    decreases |s|
  {
    if |sep| <= |s| && s[..|sep|] == sep then
      [""] + Split(s[|sep|..], sep)
    else if |s| == 0 then
      [""]
    else
      var rest := Split(s[1..], sep);
      [[s[0]] + rest[0]] + rest[1..]
  }

  /** Joining the fields with the separator gives the text back. */
  lemma {:induction false} JoinSplit(s: string, sep: string)
    requires |sep| > 0
    ensures Join(Split(s, sep), sep) == s
    decreases |s|
  {
    if |sep| <= |s| && s[..|sep|] == sep {
      var rest := Split(s[|sep|..], sep);
      JoinSplit(s[|sep|..], sep);
      assert Split(s, sep) == [""] + rest;
      assert ([""] + rest)[1..] == rest;
      assert s == sep + s[|sep|..];
    } else if |s| > 0 {
      var rest := Split(s[1..], sep);
      JoinSplit(s[1..], sep);
      JoinConsHead(s[0], rest, sep);
      assert s == [s[0]] + s[1..];
    }
  }

  /** A one-character separator occurs in no field of the split. */
  lemma {:induction false} SplitFieldsFree(s: string, sep: string)
    requires |sep| == 1
    ensures forall i :: 0 <= i < |Split(s, sep)| ==> sep[0] !in Split(s, sep)[i]
    decreases |s|
  {
    if 1 <= |s| && s[..1] == sep {
      SplitFieldsFree(s[1..], sep);
      var rest := Split(s[1..], sep);
      assert Split(s, sep) == [""] + rest;
    } else if |s| > 0 {
      SplitFieldsFree(s[1..], sep);
      var rest := Split(s[1..], sep);
      assert s[..1] == [s[0]];
      assert Split(s, sep) == [[s[0]] + rest[0]] + rest[1..];
      forall i | 0 <= i < |Split(s, sep)|
        ensures sep[0] !in Split(s, sep)[i]
      {
        if i > 0 {
          assert Split(s, sep)[i] == rest[i];
        }
      }
    }
  }

  /** A field free of the separator's first character is split off intact. */
  lemma {:induction false} SplitField(x: string, rest: string, sep: string)
    requires |sep| > 0 && sep[0] !in x
    ensures Split(x + sep + rest, sep) == [x] + Split(rest, sep)
    decreases |x|
  {
    var s := x + sep + rest;
    if x == [] {
      assert s[..|sep|] == sep && s[|sep|..] == rest;
    } else {
      assert s[0] == x[0];
      assert s[1..] == x[1..] + sep + rest;
      SplitField(x[1..], rest, sep);
      assert [x[0]] + x[1..] == x;
    }
  }

  /** Text free of the separator's first character splits into itself alone. */
  lemma {:induction false} SplitWhole(x: string, sep: string)
    requires |sep| > 0 && sep[0] !in x
    ensures Split(x, sep) == [x]
    decreases |x|
  {
    if x != [] {
      assert x[0] != sep[0];
      SplitWhole(x[1..], sep);
      assert [x[0]] + x[1..] == x;
    }
  }

  /** `split` undoes `join` for fields that do not contain the separator. */
  lemma {:induction false} SplitJoin(parts: seq<string>, sep: string)
    requires |sep| > 0 && |parts| >= 1
    requires forall i :: 0 <= i < |parts| ==> sep[0] !in parts[i]
    ensures Split(Join(parts, sep), sep) == parts
  {
    if |parts| == 1 {
      SplitWhole(parts[0], sep);
    } else {
      SplitJoin(parts[1..], sep);
      SplitField(parts[0], Join(parts[1..], sep), sep);
      assert [parts[0]] + parts[1..] == parts;
    }
  }

  /** Splitting on a one-character separator distributes over a separator
      occurrence: the fields of `a + sep + b` are those of `a` then those of `b`. */
  lemma {:induction false} SplitAppend(a: string, b: string, sep: string)
    requires |sep| == 1
    ensures Split(a + sep + b, sep) == Split(a, sep) + Split(b, sep)
    decreases |a|, 1
  {
    var s := a + sep + b;
    if a == [] {
      assert s[..1] == sep && s[1..] == b;
    } else if a[0] == sep[0] {
      SplitAppendAtSep(a, b, sep);
    } else {
      SplitAppendAtChar(a, b, sep);
    }
  }

  /** `SplitAppend` when `a` starts with the separator. */
  lemma {:induction false} SplitAppendAtSep(a: string, b: string, sep: string)
    requires |sep| == 1 && a != [] && a[0] == sep[0]
    ensures Split(a + sep + b, sep) == Split(a, sep) + Split(b, sep)
    decreases |a|, 0
  {
    var s := a + sep + b;
    assert a[..1] == sep;
    assert s[..1] == sep;
    calc {
      Split(s, sep);
      [""] + Split(s[1..], sep);
      { assert s[1..] == a[1..] + sep + b; SplitAppend(a[1..], b, sep); }
      [""] + (Split(a[1..], sep) + Split(b, sep));
      ([""] + Split(a[1..], sep)) + Split(b, sep);
      Split(a, sep) + Split(b, sep);
    }
  }

  /** `SplitAppend` when `a` starts with another character. */
  lemma {:induction false} SplitAppendAtChar(a: string, b: string, sep: string)
    requires |sep| == 1 && a != [] && a[0] != sep[0]
    ensures Split(a + sep + b, sep) == Split(a, sep) + Split(b, sep)
    decreases |a|, 0
  {
    var tail := a[1..] + sep + b;
    assert a + sep + b == [a[0]] + tail;
    assert a == [a[0]] + a[1..];
    SplitCons(a[0], tail, sep);
    SplitAppend(a[1..], b, sep);
    SplitCons(a[0], a[1..], sep);
    GlueFirstField([a[0]], Split(a[1..], sep), Split(b, sep));
  }

  /** Gluing text onto the first field commutes with appending more fields. */
  lemma GlueFirstField(x: string, ra: seq<string>, rb: seq<string>)
    requires |ra| >= 1
    ensures [x + (ra + rb)[0]] + (ra + rb)[1..] == ([x + ra[0]] + ra[1..]) + rb
  {
    assert (ra + rb)[0] == ra[0] && (ra + rb)[1..] == ra[1..] + rb;
  }

  /** A leading character other than the separator joins the first field. */
  lemma SplitCons(c: char, t: string, sep: string)
    requires |sep| == 1 && c != sep[0]
    ensures Split([c] + t, sep) == [[c] + Split(t, sep)[0]] + Split(t, sep)[1..]
  {
    var s := [c] + t;
    assert s[..1] != sep by { assert s[..1][0] == c; }
    assert s[0] == c && s[1..] == t;
  }

  /** `sep.join` with a two-character separator `c + d` equals joining on `c`
      after prefixing every field but the first with `d`. */
  function Prefixed(parts: seq<string>, d: char): (r: seq<string>)
    ensures |r| == |parts|
    ensures forall i :: 0 <= i < |parts| ==> r[i] == [d] + parts[i]
  {
    if parts == [] then [] else [[d] + parts[0]] + Prefixed(parts[1..], d)
  }

  lemma {:induction false} JoinWide(parts: seq<string>, c: char, d: char)
    requires |parts| >= 1
    ensures Join(parts, [c, d]) == Join([parts[0]] + Prefixed(parts[1..], d), [c])
  {
    if |parts| > 1 {
      JoinWide(parts[1..], c, d);
      var tail := Prefixed(parts[1..], d);
      assert tail == [[d] + parts[1]] + Prefixed(parts[2..], d);
      assert parts[1..][1..] == parts[2..];
      var q := [parts[0]] + tail;
      assert q[1..] == tail;
      var q' := [[d] + parts[1]] + Prefixed(parts[2..], d);
      assert q'[1..] == Prefixed(parts[2..], d);
      if |parts| > 2 {
        assert Join(tail, [c]) == [d] + parts[1] + [c] + Join(Prefixed(parts[2..], d), [c]);
      }
    }
  }

  /** Splitting `c + d`-joined fields on `c` alone gives the fields back, each
      but the first carrying a leading `d`. */
  lemma SplitWide(parts: seq<string>, c: char, d: char)
    requires |parts| >= 1 && c != d
    requires forall i :: 0 <= i < |parts| ==> c !in parts[i]
    ensures Split(Join(parts, [c, d]), [c]) == [parts[0]] + Prefixed(parts[1..], d)
  {
    var wide := [parts[0]] + Prefixed(parts[1..], d);
    JoinWide(parts, c, d);
    forall i | 0 <= i < |wide|
      ensures [c][0] !in wide[i]
    {
      if i > 0 {
        assert wide[i] == [d] + parts[i];
      }
    }
    SplitJoin(wide, [c]);
  }

  /** Text that holds no line boundary. */
  predicate NoLineBreak(s: string) {
    forall k :: 0 <= k < |s| ==> !IsLineBreak(s[k])
  }

  /** Joining two texts without line boundaries creates none. */
  lemma NoLineBreakJoin(a: string, b: string)
    requires NoLineBreak(a) && NoLineBreak(b)
    ensures NoLineBreak(a + b)
  {
    forall k | 0 <= k < |a + b|
      ensures !IsLineBreak((a + b)[k])
    {
      if k >= |a| {
        assert (a + b)[k] == b[k - |a|];
      }
    }
  }

  /** Python's `str.splitlines()`: a line ends at any line boundary (a `\r\n`
      pair counting once), the boundary itself is dropped, and there is no
      trailing empty line after a final boundary. */
  function SplitLines(s: string): (r: seq<string>)
    ensures forall i :: 0 <= i < |r| ==> NoLineBreak(r[i])
    ensures s == [] <==> r == []
    decreases |s|
  {
    if |s| == 0 then []
    else if IsLineBreak(s[0]) then
      var n := if s[0] == '\r' && |s| > 1 && s[1] == '\n' then 2 else 1;
      [""] + SplitLines(s[n..])
    else
      var rest := SplitLines(s[1..]);
      if rest == [] then [[s[0]]] else [[s[0]] + rest[0]] + rest[1..]
  }

  /** Newline-terminated rendering of a list of lines. */
  function Lines(ls: seq<string>): string {
    if ls == [] then "" else ls[0] + "\n" + Lines(ls[1..])
  }

  lemma {:induction false} SplitLinesField(x: string, rest: string)
    requires NoLineBreak(x)
    ensures SplitLines(x + "\n" + rest) == [x] + SplitLines(rest)
    decreases |x|
  {
    var s := x + "\n" + rest;
    if x == [] {
      assert s[1..] == rest;
    } else {
      assert s[0] == x[0];
      assert s[1..] == x[1..] + "\n" + rest;
      SplitLinesField(x[1..], rest);
      assert [x[0]] + x[1..] == x;
    }
  }

  /** `splitlines` recovers the lines of newline-terminated text. */
  lemma {:induction false} SplitLinesOfLines(ls: seq<string>)
    requires forall i :: 0 <= i < |ls| ==> NoLineBreak(ls[i])
    ensures SplitLines(Lines(ls)) == ls
  {
    if ls != [] {
      SplitLinesOfLines(ls[1..]);
      SplitLinesField(ls[0], Lines(ls[1..]));
      assert [ls[0]] + ls[1..] == ls;
    }
  }

  /** `splitlines` reads newline-terminated lines off the front of any text. */
  lemma {:induction false} SplitLinesPrefix(ls: seq<string>, after: string)
    requires forall i :: 0 <= i < |ls| ==> NoLineBreak(ls[i])
    ensures SplitLines(Lines(ls) + after) == ls + SplitLines(after)
  {
    if ls == [] {
      assert Lines(ls) + after == after;
    } else {
      var tail := Lines(ls[1..]) + after;
      calc {
        SplitLines(Lines(ls) + after);
        { assert Lines(ls) + after == ls[0] + "\n" + tail; }
        SplitLines(ls[0] + "\n" + tail);
        { SplitLinesField(ls[0], tail); }
        [ls[0]] + SplitLines(tail);
        { SplitLinesPrefix(ls[1..], after); }
        [ls[0]] + (ls[1..] + SplitLines(after));
        { assert ls == [ls[0]] + ls[1..]; }
        ls + SplitLines(after);
      }
    }
  }

  lemma {:induction false} LinesAppend(ls: seq<string>, x: string, after: string)
    ensures Lines(ls) + x + "\n" + after == Lines(ls + [x]) + after
  {
    if ls == [] {
      assert ls + [x] == [x];
    } else {
      LinesAppend(ls[1..], x, after);
      assert (ls + [x])[0] == ls[0];
      assert (ls + [x])[1..] == ls[1..] + [x];
      var head, tail := ls[0] + "\n", Lines(ls[1..]);
      calc {
        Lines(ls) + x + "\n" + after;
        (head + tail) + x + "\n" + after;
        { LinesRegroup(head, tail, x, after); }
        head + (tail + x + "\n" + after);
        head + (Lines(ls[1..] + [x]) + after);
        (head + Lines(ls[1..] + [x])) + after;
        Lines(ls + [x]) + after;
      }
    }
  }

  lemma LinesRegroup(head: string, tail: string, x: string, after: string)
    ensures (head + tail) + x + "\n" + after == head + (tail + x + "\n" + after)
  {
  }

  /** Every occurrence of `pat`, scanning left to right, replaced by `rep`; this
      is what `str.format(project_name=…)` does to a template whose only
      replacement field is `{project_name}`. */
  function ReplaceAll(s: string, pat: string, rep: string): string
    requires |pat| > 0
    decreases |s|
  {
    if |s| < |pat| then s
    else if s[..|pat|] == pat then rep + ReplaceAll(s[|pat|..], pat, rep)
    else [s[0]] + ReplaceAll(s[1..], pat, rep)
  }

  /** Text without the pattern's first character is left unchanged. */
  lemma {:induction false} ReplaceAllAbsent(s: string, pat: string, rep: string)
    requires |pat| > 0 && pat[0] !in s
    ensures ReplaceAll(s, pat, rep) == s
    decreases |s|
  {
    if |s| >= |pat| {
      assert s[..|pat|][0] == s[0];
      ReplaceAllAbsent(s[1..], pat, rep);
      assert [s[0]] + s[1..] == s;
    }
  }

  /** A single placeholder between placeholder-free text is replaced in place. */
  lemma {:induction false} ReplaceAllOnce(a: string, b: string, pat: string, rep: string)
    requires |pat| > 0 && pat[0] !in a
    ensures ReplaceAll(a + pat + b, pat, rep) == a + rep + ReplaceAll(b, pat, rep)
    decreases |a|
  {
    var s := a + pat + b;
    if a == [] {
      assert s[..|pat|] == pat && s[|pat|..] == b;
    } else {
      assert |s| >= |pat|;
      var front := s[..|pat|];
      assert front[0] == a[0] != pat[0];
      assert s[1..] == a[1..] + pat + b;
      ReplaceAllOnce(a[1..], b, pat, rep);
      assert ReplaceAll(s, pat, rep) == [a[0]] + ReplaceAll(s[1..], pat, rep);
      assert [a[0]] + a[1..] == a;
    }
  }
}
