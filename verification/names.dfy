/** Project-name validation and the comma-separated inputs: the reserved-name
    list from the configuration file and the package list typed at the
    prompt. */
module Names {
  import opened Text
  import opened Errors

  /** The Windows device names the fixed-list variant reserves. */
  const DeviceNames: set<string> := {
    "CON", "PRN", "AUX", "NUL",
    "COM1", "COM2", "COM3", "COM4", "COM5", "COM6", "COM7", "COM8", "COM9",
    "LPT1", "LPT2", "LPT3", "LPT4", "LPT5", "LPT6", "LPT7", "LPT8", "LPT9"
  }

  /** The names listed in the `reserved_file_names` value a fresh configuration
      file receives: the device names and the Unix top-level directories. */
  const DefaultReservedList: seq<string> := [
    "CON", "PRN", "AUX", "NUL",
    "COM1", "COM2", "COM3", "COM4", "COM5", "COM6", "COM7", "COM8", "COM9",
    "LPT1", "LPT2", "LPT3", "LPT4", "LPT5", "LPT6", "LPT7", "LPT8", "LPT9",
    "bin", "boot", "dev", "etc", "lib", "lib64", "proc", "run", "sbin", "srv", "sys", "tmp", "var"
  ]

  /** The `reserved_file_names` value a fresh configuration file receives. */
  const DefaultReservedConfig: string := Join(DefaultReservedList, ", ")

  /** A configuration field in the form the reserved set stores it: stripped
      and upper-cased. */
  function Canonical(field: string): (r: string)
    ensures Upper(r) == r && IsStripped(r)
    ensures ',' !in field ==> ',' !in r
  {
    var x := Strip(field);
    UpperIdempotent(x);
    UpperKeepsForm(x);
    if ',' !in field then
      StripKeepsOut(field, ',');
      Upper(x)
    else
      Upper(x)
  }

  /** A field's stored form is its text upper-cased once the surrounding
      whitespace is gone: `" con\t"` is stored as `CON`. */
  lemma CanonicalPadded(a: string, x: string, b: string)
    requires forall i :: 0 <= i < |a| ==> IsSpace(a[i])
    requires forall i :: 0 <= i < |b| ==> IsSpace(b[i])
    requires IsStripped(x)
    ensures Canonical(a + x + b) == Upper(x)
  {
    StripSurrounded(a, x, b);
  }

  /** The reserved set the configurable variant builds from its configuration
      value: each comma-separated field, stripped and upper-cased.  Every
      member is therefore already in upper case, free of commas and of
      surrounding whitespace. */
  function ReservedSet(config: string): (r: set<string>)
    ensures forall x :: x in r ==> Upper(x) == x && ',' !in x && IsStripped(x)
    ensures Canonical(Split(config, ",")[0]) in r
  {
    var fields := Split(config, ",");
    SplitFieldsFree(config, ",");
    assert "," == [','];
    Canonicals(fields)
  }

  /** The canonical forms of a list of fields. */
  function Canonicals(fields: seq<string>): set<string> {
    set i | 0 <= i < |fields| :: Canonical(fields[i])
  }

  lemma CanonicalsAppend(f: seq<string>, g: seq<string>)
    ensures Canonicals(f + g) == Canonicals(f) + Canonicals(g)
  {
    forall x | x in Canonicals(f + g)
      ensures x in Canonicals(f) + Canonicals(g)
    {
      var i :| 0 <= i < |f + g| && x == Canonical((f + g)[i]);
      if i < |f| {
        assert (f + g)[i] == f[i];
      } else {
        assert (f + g)[i] == g[i - |f|];
      }
    }
    forall x | x in Canonicals(f)
      ensures x in Canonicals(f + g)
    {
      var i :| 0 <= i < |f| && x == Canonical(f[i]);
      assert (f + g)[i] == f[i];
    }
    forall x | x in Canonicals(g)
      ensures x in Canonicals(f + g)
    {
      var i :| 0 <= i < |g| && x == Canonical(g[i]);
      assert (f + g)[|f| + i] == g[i];
    }
  }

  /** The project-name validator: a name is rejected exactly when its upper-case
      form is reserved, and is otherwise accepted unchanged. */
  function ValidateName(name: string, reserved: set<string>): (r: Result<string>)
    ensures r.Ok? <==> Upper(name) !in reserved
    ensures r.Ok? ==> r.value == name
    ensures r.Err? ==> r.error == ReservedName(name)
  {
    if Upper(name) in reserved then Err(ReservedName(name)) else Ok(name)
  }

  /** The project-name prompt: a blank answer is refused before the validator
      runs; any other answer is accepted exactly when the validator accepts it. */
  function AcceptProjectName(name: string, reserved: set<string>): (r: Result<string>)
    ensures r.Ok? <==> Strip(name) != "" && Upper(name) !in reserved
    ensures r.Ok? ==> r.value == name
    ensures Strip(name) == "" ==> r == Err(EmptyName)
  {
    if Strip(name) == "" then Err(EmptyName) else ValidateName(name, reserved)
  }

  /** Validation ignores letter case: names that agree once upper-cased get the
      same verdict. */
  lemma ValidationIgnoresCase(a: string, b: string, reserved: set<string>)
    requires Upper(a) == Upper(b)
    ensures ValidateName(a, reserved).Ok? <==> ValidateName(b, reserved).Ok?
  {
  }

  /** With the fixed list, device names are refused in any letter case. */
  lemma DeviceNamesRefused()
    ensures ValidateName("con", DeviceNames) == Err(ReservedName("con"))
    ensures ValidateName("Lpt9", DeviceNames) == Err(ReservedName("Lpt9"))
  {
    assert Upper("con") == "CON" && "CON" in DeviceNames;
    assert Upper("Lpt9") == "LPT9" && "LPT9" in DeviceNames;
  }

  /** A name that merely starts like a device name is accepted. */
  lemma DeviceLookalikesAccepted()
    ensures ValidateName("console", DeviceNames) == Ok("console")
    ensures ValidateName("com10", DeviceNames) == Ok("com10")
  {
    assert Upper("console") == "CONSOLE" && "CONSOLE" !in DeviceNames;
    assert Upper("com10") == "COM10" && "COM10" !in DeviceNames;
  }

  /** Applies `strip` to every field and drops the fields that become empty,
      keeping the order of the rest. */
  function StripAll(fields: seq<string>): (r: seq<string>)
    ensures |r| <= |fields|
    ensures forall i :: 0 <= i < |r| ==> r[i] != "" && IsStripped(r[i])
  {
    if fields == [] then []
    else
      var x := Strip(fields[0]);
      if x == "" then StripAll(fields[1..]) else [x] + StripAll(fields[1..])
  }

  /** A character no field holds is absent from the stripped fields too. */
  lemma {:induction false} StripAllKeepsOut(fields: seq<string>, c: char)
    requires forall j :: 0 <= j < |fields| ==> c !in fields[j]
    ensures forall i :: 0 <= i < |StripAll(fields)| ==> c !in StripAll(fields)[i]
  {
    if fields != [] {
      StripKeepsOut(fields[0], c);
      StripAllKeepsOut(fields[1..], c);
    }
  }

  /** The package list as the prompt handlers read it: the comma-separated
      fields, stripped, with the empty ones dropped, in input order.  No result
      is empty, padded with whitespace, or holds a comma. */
  function ParsePackages(response: string): (r: seq<string>)
    ensures forall i :: 0 <= i < |r| ==> r[i] != "" && IsStripped(r[i]) && ',' !in r[i]
  {
    var fields := Split(response, ",");
    SplitFieldsFree(response, ",");
    assert "," == [','];
    StripAllKeepsOut(fields, ',');
    StripAll(fields)
  }

  /** Stripping is idempotent, so stripping already-stripped fields again keeps
      the same list. */
  function StripEach(fields: seq<string>): (r: seq<string>)
    ensures |r| == |fields|
    ensures forall i :: 0 <= i < |r| ==> r[i] == Strip(fields[i])
  {
    if fields == [] then [] else [Strip(fields[0])] + StripEach(fields[1..])
  }

  lemma {:induction false} StripAllStripEach(fields: seq<string>)
    ensures StripAll(StripEach(fields)) == StripAll(fields)
  {
    if fields != [] {
      StripAllStripEach(fields[1..]);
      StripOfStripped(Strip(fields[0]));
      assert StripEach(fields)[1..] == StripEach(fields[1..]);
    }
  }

  lemma {:induction false} StripAllPrefixed(fields: seq<string>)
    requires forall i :: 0 <= i < |fields| ==> IsStripped(fields[i])
    ensures StripAll(Prefixed(fields, ' ')) == StripAll(fields)
  {
    if fields != [] {
      StripAllPrefixed(fields[1..]);
      StripOfSpaced(fields[0]);
      StripOfStripped(fields[0]);
      assert Prefixed(fields, ' ')[1..] == Prefixed(fields[1..], ' ');
    }
  }

  lemma {:induction false} StripAllOfParsed(ps: seq<string>)
    requires forall i :: 0 <= i < |ps| ==> ps[i] != "" && IsStripped(ps[i])
    ensures StripAll(ps) == ps
  {
    if ps != [] {
      StripAllOfParsed(ps[1..]);
      StripOfStripped(ps[0]);
    }
  }

  /** Stripping and dropping works field by field: the fields of `a` and then
      those of `b` give the kept fields of `a` followed by those of `b`. */
  lemma {:induction false} StripAllAppend(a: seq<string>, b: seq<string>)
    ensures StripAll(a + b) == StripAll(a) + StripAll(b)
  {
    if a == [] {
      assert a + b == b;
    } else {
      assert (a + b)[0] == a[0];
      assert (a + b)[1..] == a[1..] + b;
      StripAllAppend(a[1..], b);
    }
  }

  /** A single field is kept, stripped, exactly when it is not blank. */
  lemma StripAllSingle(x: string)
    ensures StripAll([x]) == if Strip(x) == "" then [] else [Strip(x)]
  {
    assert [x][1..] == [];
  }

  /** The package list of `a,b` is the package list of `a` followed by that
      of `b`: every comma ends a field, and fields are read in input order. */
  lemma ParsePackagesAppend(a: string, b: string)
    ensures ParsePackages(a + "," + b) == ParsePackages(a) + ParsePackages(b)
  {
    SplitAppend(a, b, ",");
    StripAllAppend(Split(a, ","), Split(b, ","));
  }

  /** Text without a comma is one field: it gives its stripped form, or
      nothing when it is blank. */
  lemma ParsePackagesField(x: string)
    requires ',' !in x
    ensures ParsePackages(x) == if Strip(x) == "" then [] else [Strip(x)]
  {
    assert ","[0] == ',';
    SplitWhole(x, ",");
    StripAllSingle(x);
  }

  /** The reserved set of two comma-joined lists is the union of their
      reserved sets. */
  lemma ReservedSetAppend(a: string, b: string)
    ensures ReservedSet(a + "," + b) == ReservedSet(a) + ReservedSet(b)
  {
    SplitAppend(a, b, ",");
    CanonicalsAppend(Split(a, ","), Split(b, ","));
  }

  /** Text without a comma reserves exactly its own canonical form. */
  lemma ReservedSetField(x: string)
    requires ',' !in x
    ensures ReservedSet(x) == {Canonical(x)}
  {
    assert ","[0] == ',';
    SplitWhole(x, ",");
  }

  /** Every entry of a list is reserved, not only the first: `"CON,PRN"`
      reserves both `CON` and `PRN`. */
  lemma ReservedSetPair(a: string, b: string)
    requires ',' !in a && ',' !in b
    ensures ReservedSet(a + "," + b) == {Canonical(a), Canonical(b)}
  {
    ReservedSetAppend(a, b);
    ReservedSetField(a);
    ReservedSetField(b);
  }

  /** A leading comma only adds an empty field, which is dropped. */
  lemma ParsePackagesLeadingComma(b: string)
    ensures ParsePackages("," + b) == ParsePackages(b)
  {
    assert "," + b == "" + "," + b;
    ParsePackagesAppend("", b);
    ParsePackagesField("");
  }

  /** Empty fields are dropped: `"a,,b"` reads as the two packages `a`
      and `b`. */
  lemma ParsePackagesSkipsEmpty(a: string, b: string)
    requires a != "" && IsStripped(a) && ',' !in a
    requires b != "" && IsStripped(b) && ',' !in b
    ensures ParsePackages(a + ",," + b) == [a, b]
  {
    var e := "," + b;
    assert a + ",," + b == a + "," + e;
    calc {
      ParsePackages(a + "," + e);
      { ParsePackagesAppend(a, e); }
      ParsePackages(a) + ParsePackages(e);
      { ParsePackagesLeadingComma(b); }
      ParsePackages(a) + ParsePackages(b);
      { ParsePackagesField(a); StripOfStripped(a); ParsePackagesField(b); StripOfStripped(b); }
      [a] + [b];
    }
  }

  /** Fields are stripped: `" x , y"` reads as the packages `x` and `y`. */
  lemma ParsePackagesStripsFields(a: string, b: string)
    requires a != "" && IsStripped(a) && ',' !in a
    requires b != "" && IsStripped(b) && ',' !in b
    ensures ParsePackages(" " + a + " , " + b) == [a, b]
  {
    var pa, pb := " " + a + " ", " " + b;
    assert " " + a + " , " + b == pa + "," + pb;
    calc {
      ParsePackages(pa + "," + pb);
      { ParsePackagesAppend(pa, pb); }
      ParsePackages(pa) + ParsePackages(pb);
      { assert ',' !in pa; ParsePackagesField(pa); StripPadded(a); }
      [a] + ParsePackages(pb);
      { assert ',' !in pb; ParsePackagesField(pb); StripOfSpaced(b); }
      [a] + [b];
    }
  }

  /** Splitting `", "`-joined stripped, comma-free fields and stripping them
      again gives back the non-empty fields. */
  lemma ParseJoined(ss: seq<string>)
    requires |ss| >= 1
    requires forall i :: 0 <= i < |ss| ==> IsStripped(ss[i]) && ',' !in ss[i]
    ensures ParsePackages(Join(ss, ", ")) == StripAll(ss)
  {
    var wide := [ss[0]] + Prefixed(ss[1..], ' ');
    assert ", " == [',', ' '] && "," == [','];
    SplitWide(ss, ',', ' ');
    assert ParsePackages(Join(ss, ", ")) == StripAll(wide);
    StripOfStripped(ss[0]);
    assert wide[0] == ss[0] && wide[1..] == Prefixed(ss[1..], ' ');
    StripAllPrefixed(ss[1..]);
    assert StripAll(wide) == StripAll(ss);
  }

  /** The package prompt's own output parses back to itself: a list of
      non-empty, stripped, comma-free names joined with `", "` reads back as
      the same list. */
  lemma ParsePackagesRoundTrip(ps: seq<string>)
    requires forall i :: 0 <= i < |ps| ==> ps[i] != "" && IsStripped(ps[i]) && ',' !in ps[i]
    ensures ParsePackages(Join(ps, ", ")) == ps
  {
    if ps == [] {
      assert Split("", ",") == [""];
    } else {
      ParseJoined(ps);
      StripAllOfParsed(ps);
    }
  }

  /** The default the package prompt offers: the configured default packages
      (the comma-separated fields of the configuration value), each stripped,
      joined with `", "`. */
  function DefaultPackagesPrompt(config: string): string {
    Join(StripEach(Split(config, ",")), ", ")
  }

  /** Accepting the prompt's default installs exactly the configured default
      packages, read the same way as typed input. */
  lemma AcceptingDefaultPackages(config: string)
    ensures ParsePackages(DefaultPackagesPrompt(config)) == ParsePackages(config)
  {
    var fields := Split(config, ",");
    SplitFieldsFree(config, ",");
    assert "," == [','];
    var ss := StripEach(fields);
    forall i | 0 <= i < |ss|
      ensures IsStripped(ss[i]) && ',' !in ss[i]
    {
      StripKeepsOut(fields[i], ',');
    }
    ParseJoined(ss);
    StripAllStripEach(fields);
  }

  lemma CanonicalOfWide(names: seq<string>)
    requires |names| >= 1
    requires forall i :: 0 <= i < |names| ==> IsStripped(names[i])
    ensures forall i :: 0 <= i < |names| ==>
      Canonical(([names[0]] + Prefixed(names[1..], ' '))[i]) == Upper(names[i])
  {
    var wide := [names[0]] + Prefixed(names[1..], ' ');
    forall i | 0 <= i < |wide|
      ensures Canonical(wide[i]) == Upper(names[i])
    {
      if i == 0 {
        StripOfStripped(names[0]);
      } else {
        assert wide[i] == " " + names[i];
        StripOfSpaced(names[i]);
      }
    }
  }

  /** Splitting a `", "`-joined list on `","` and canonicalising each field gives
      the upper-cased names, field by field. */
  lemma CanonicalFields(names: seq<string>)
    requires |names| >= 1
    requires forall i :: 0 <= i < |names| ==> IsStripped(names[i]) && ',' !in names[i]
    ensures |Split(Join(names, ", "), ",")| == |names|
    ensures forall i :: 0 <= i < |names| ==> Canonical(Split(Join(names, ", "), ",")[i]) == Upper(names[i])
  {
    assert ", " == [',', ' '] && "," == [','];
    SplitWide(names, ',', ' ');
    CanonicalOfWide(names);
  }

  /** A configuration value listing names joined with `", "` reserves exactly
      those names, upper-cased. */
  lemma ReservedSetOfList(names: seq<string>)
    requires |names| >= 1
    requires forall i :: 0 <= i < |names| ==> IsStripped(names[i]) && ',' !in names[i]
    ensures ReservedSet(Join(names, ", ")) == set n | n in names :: Upper(n)
  {
    CanonicalFields(names);
    SameImage(Split(Join(names, ", "), ","), names);
  }

  /** Canonicalising fields that agree index by index with upper-cased names
      yields the set of upper-cased names. */
  lemma SameImage(fields: seq<string>, names: seq<string>)
    requires |fields| == |names|
    requires forall i :: 0 <= i < |names| ==> Canonical(fields[i]) == Upper(names[i])
    ensures (set i | 0 <= i < |fields| :: Canonical(fields[i])) == set n | n in names :: Upper(n)
  {
    var r := set i | 0 <= i < |fields| :: Canonical(fields[i]);
    var expected := set n | n in names :: Upper(n);
    forall x | x in r
      ensures x in expected
    {
      var i :| 0 <= i < |fields| && x == Canonical(fields[i]);
      assert names[i] in names;
    }
    forall n | n in expected
      ensures n in r
    {
      var m :| m in names && n == Upper(m);
      var i :| 0 <= i < |names| && names[i] == m;
      assert Canonical(fields[i]) == n;
    }
  }

  /** No default name is padded with whitespace or holds a comma. */
  lemma DefaultNamesPlain()
    ensures forall i :: 0 <= i < |DefaultReservedList| ==>
      IsStripped(DefaultReservedList[i]) && ',' !in DefaultReservedList[i]
  {
  }

  /** A string without lower-case ASCII letters is its own upper-case form. */
  lemma UpperOfUpperCase(s: string)
    requires forall i :: 0 <= i < |s| ==> !('a' <= s[i] <= 'z')
    ensures Upper(s) == s
  {
  }

  /** The default configuration reserves the Windows device names and the Unix
      top-level directory names, compared in upper case. */
  lemma DefaultReservedNames()
    ensures ReservedSet(DefaultReservedConfig) == set n | n in DefaultReservedList :: Upper(n)
    ensures DeviceNames <= ReservedSet(DefaultReservedConfig)
  {
    DefaultNamesPlain();
    ReservedSetOfList(DefaultReservedList);
    DevicesListed();
    DevicesUpper();
  }

  lemma DevicesListed()
    ensures forall d :: d in DeviceNames ==> d in DefaultReservedList
  {
  }

  lemma DevicesUpper()
    ensures forall d :: d in DeviceNames ==> Upper(d) == d
  {
    forall d | d in DeviceNames
      ensures Upper(d) == d
    {
      UpperOfUpperCase(d);
    }
  }

  /** An absent or empty configuration value reserves the empty name. */
  lemma EmptyConfigReservesEmptyName()
    ensures ReservedSet("") == {""}
  {
    assert Split("", ",") == [""];
    assert Strip("") == "";
  }
}
