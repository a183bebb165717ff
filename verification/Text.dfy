/** The string functions of Go's standard library that the repository relies on. */
module Text {

  /** `strings.Split` for a one-character separator. */
  function Split(s: string, sep: char): (parts: seq<string>)
    ensures |parts| >= 1
    ensures forall i :: 0 <= i < |parts| ==> sep !in parts[i]
    ensures Join(parts, sep) == s
  {
    if s == "" then [""]
    else
      var rest := Split(s[1..], sep);
      if s[0] == sep then
        assert Join([""] + rest, sep) == "" + [sep] + Join(rest, sep);
        [""] + rest
      else
        JoinHead(s[0], rest, sep);
        [[s[0]] + rest[0]] + rest[1..]
  }

  /** `strings.Join`. */
  function Join(parts: seq<string>, sep: char): string
    requires |parts| >= 1
  {
    if |parts| == 1 then parts[0] else parts[0] + [sep] + Join(parts[1..], sep)
  }

  lemma JoinHead(c: char, parts: seq<string>, sep: char)
    requires |parts| >= 1
    ensures Join([[c] + parts[0]] + parts[1..], sep) == [c] + Join(parts, sep)
  {
    var longer := [[c] + parts[0]] + parts[1..];
    assert longer[1..] == parts[1..];
  }

  /** Splitting distributes over a separator. */
  lemma {:induction false} SplitAround(a: string, b: string, sep: char)
    ensures Split(a + [sep] + b, sep) == Split(a, sep) + Split(b, sep)
  {
    var s := a + [sep] + b;
    if a == "" {
      assert s[1..] == b;
    } else {
      assert s[1..] == a[1..] + [sep] + b;
      SplitAround(a[1..], b, sep);
    }
  }

  /** A text without the separator is a single part. */
  lemma {:induction false} SplitNone(s: string, sep: char)
    requires sep !in s
    ensures Split(s, sep) == [s]
  {
    if s != "" {
      SplitNone(s[1..], sep);
      assert [s[0]] + s[1..] == s;
    }
  }

  /** Split undoes Join when no part holds the separator. */
  lemma {:induction false} SplitJoin(parts: seq<string>, sep: char)
    requires |parts| >= 1
    requires forall i :: 0 <= i < |parts| ==> sep !in parts[i]
    ensures Split(Join(parts, sep), sep) == parts
  {
    SplitNone(parts[0], sep);
    if |parts| > 1 {
      SplitJoin(parts[1..], sep);
      SplitAround(parts[0], Join(parts[1..], sep), sep);
    }
  }

  /** Texts that split alike are equal. */
  lemma SplitInjective(a: string, b: string, sep: char)
    requires Split(a, sep) == Split(b, sep)
    ensures a == b
  {
    assert a == Join(Split(a, sep), sep) == b;
  }

  function LowerChar(c: char): char {
    if 'A' <= c <= 'Z' then (c as int + 32) as char else c
  }

  /** `strings.ToLower`, for ASCII text. */
  function Lower(s: string): (r: string)
    ensures |r| == |s|
    ensures forall i :: 0 <= i < |s| ==> r[i] == LowerChar(s[i])
  {
    seq(|s|, i requires 0 <= i < |s| => LowerChar(s[i]))
  }

  /** Lowering takes each capital to its small letter and leaves everything else alone. */
  lemma LowersLetters(s: string)
    ensures Lower("ABCDEFGHIJKLMNOPQRSTUVWXYZ") == "abcdefghijklmnopqrstuvwxyz"
    ensures forall i :: 0 <= i < |s| && s[i] !in "ABCDEFGHIJKLMNOPQRSTUVWXYZ" ==> Lower(s)[i] == s[i]
  {
    var capitals, small := "ABCDEFGHIJKLMNOPQRSTUVWXYZ", "abcdefghijklmnopqrstuvwxyz";
    forall i | 0 <= i < 26 ensures Lower(capitals)[i] == small[i] {
    }
    forall i | 0 <= i < |s| && s[i] !in capitals ensures Lower(s)[i] == s[i] {
      CapitalIn(s[i]);
    }
  }

  lemma CapitalIn(c: char)
    ensures 'A' <= c <= 'Z' ==> c in "ABCDEFGHIJKLMNOPQRSTUVWXYZ"
  {
    if 'A' <= c <= 'Z' {
      assert "ABCDEFGHIJKLMNOPQRSTUVWXYZ"[c as int - 'A' as int] == c;
    }
  }

  /** `strings.EqualFold`; one side is always hexadecimal, so ASCII folding is enough. */
  predicate EqualFold(a: string, b: string) {
    Lower(a) == Lower(b)
  }

  /** Hexadecimal text as `hex.EncodeToString` prints it. */
  predicate IsLowerHex(s: string) {
    s != "" && forall i :: 0 <= i < |s| ==> '0' <= s[i] <= '9' || 'a' <= s[i] <= 'f'
  }

  /** The given text is the printed one, character by character, except that a letter may be a
      capital. */
  predicate Spells(given: string, printed: string) {
    && |given| == |printed|
    && forall i :: 0 <= i < |given| ==>
      || given[i] == printed[i]
      || ('A' <= given[i] <= 'F' && printed[i] as int == given[i] as int + 32)
  }

  /** Against lower-case hexadecimal text, folding letter case is comparing character by
      character and taking the capitals A to F for the letters 32 above them. */
  lemma FoldsIff(printed: string, given: string)
    requires IsLowerHex(printed)
    ensures EqualFold(printed, given) <==>
      && |given| == |printed|
      && forall i :: 0 <= i < |given| ==>
        || given[i] == printed[i]
        || (given[i] in "ABCDEF" && printed[i] as int == given[i] as int + 32)
    ensures EqualFold(printed, given) <==> Spells(given, printed)
  {
    forall i | 0 <= i < |printed| ensures Lower(printed)[i] == printed[i] {
    }
    if Spells(given, printed) {
      assert Lower(printed) == Lower(given);
    }
    if Lower(printed) == Lower(given) {
      forall i | 0 <= i < |given|
        ensures given[i] == printed[i]
          || (given[i] in "ABCDEF" && printed[i] as int == given[i] as int + 32)
      {
        assert Lower(given)[i] == printed[i];
        CapitalHex(given[i], printed[i]);
      }
    }
  }

  lemma CapitalHex(given: char, printed: char)
    requires LowerChar(given) == printed && ('0' <= printed <= '9' || 'a' <= printed <= 'f')
    ensures given == printed || (given in "ABCDEF" && printed as int == given as int + 32)
  {
    if given != printed {
      assert 'A' <= given <= 'F';
      assert "ABCDEF"[given as int - 'A' as int] == given;
    }
  }

  predicate Blank(s: string) {
    forall i :: 0 <= i < |s| ==> IsSpace(s[i])
  }

  /** The text is this core between blanks. */
  predicate Surrounds(s: string, a: string, core: string, b: string) {
    s == a + core + b && Blank(a) && Blank(b)
  }

  /** The characters `strings.TrimSpace` removes. */
  predicate IsSpace(c: char) {
    var n := c as int;
    9 <= n <= 13 || n == 32 || n == 0x85 || n == 0xA0 || n == 0x1680 || 0x2000 <= n <= 0x200A
    || n == 0x2028 || n == 0x2029 || n == 0x202F || n == 0x205F || n == 0x3000
  }

  /** They are these twenty-five. */
  lemma SpacesAre(c: char)
    ensures IsSpace(c) <==>
      || c in "\t\n\U{0B}\U{0C}\r \U{85}\U{A0}\U{1680}\U{2028}\U{2029}\U{202F}\U{205F}\U{3000}"
      || c in "\U{2000}\U{2001}\U{2002}\U{2003}\U{2004}\U{2005}\U{2006}\U{2007}\U{2008}\U{2009}\U{200A}"
  {
    var wide := "\U{2000}\U{2001}\U{2002}\U{2003}\U{2004}\U{2005}\U{2006}\U{2007}\U{2008}\U{2009}\U{200A}";
    var low := "\t\n\U{0B}\U{0C}\r \U{85}\U{A0}\U{1680}\U{2028}\U{2029}\U{202F}\U{205F}\U{3000}";
    if 0x2000 <= c as int <= 0x200A {
      assert wide[c as int - 0x2000] == c;
    } else if 9 <= c as int <= 13 {
      assert low[c as int - 9] == c;
    } else if IsSpace(c) {
      var k := if c == ' ' then 5 else if c == '\U{85}' then 6 else if c == '\U{A0}' then 7
        else if c == '\U{1680}' then 8 else if c == '\U{2028}' then 9 else if c == '\U{2029}' then 10
        else if c == '\U{202F}' then 11 else if c == '\U{205F}' then 12 else 13;
      assert low[k] == c;
    }
  }

  function TrimLeft(s: string): string {
    if s != "" && IsSpace(s[0]) then TrimLeft(s[1..]) else s
  }

  function TrimRight(s: string): string {
    if s != "" && IsSpace(s[|s| - 1]) then TrimRight(s[..|s| - 1]) else s
  }

  /** `strings.TrimSpace`. */
  function TrimSpace(s: string): string {
    TrimRight(TrimLeft(s))
  }

  /** `strings.Contains`. */
  predicate Contains(s: string, part: string) {
    part <= s || (s != "" && Contains(s[1..], part))
  }

  lemma {:induction false} ContainsAt(a: string, part: string, b: string)
    ensures Contains(a + part + b, part)
    decreases |a|
  {
    var s := a + part + b;
    if a == "" {
      assert s == part + b;
    } else {
      assert s[1..] == a[1..] + part + b;
      ContainsAt(a[1..], part, b);
    }
  }

  /** A text contains another if and only if it is that text with something before and after it. */
  lemma ContainsIff(s: string, part: string)
    ensures Contains(s, part) <==> exists a: string, b: string :: s == a + part + b
  {
    if Contains(s, part) {
      var a, b := ContainedAt(s, part);
    }
    if a: string, b: string :| s == a + part + b {
      ContainsAt(a, part, b);
    }
  }

  lemma {:induction false} ContainedAt(s: string, part: string) returns (a: string, b: string)
    requires Contains(s, part)
    ensures s == a + part + b
    decreases |s|
  {
    if part <= s {
      a, b := "", s[|part|..];
    } else {
      a, b := ContainedAt(s[1..], part);
      a := [s[0]] + a;
    }
  }

  /** Trimming takes blank text off both ends until neither end is blank. */
  lemma TrimExact(s: string) returns (a: string, b: string)
    ensures s == a + TrimSpace(s) + b && Blank(a) && Blank(b)
    ensures var core := TrimSpace(s); core != "" ==> !IsSpace(core[0]) && !IsSpace(core[|core| - 1])
  {
    a := TrimLeftExact(s);
    b := TrimRightExact(TrimLeft(s));
  }

  lemma {:induction false} TrimLeftExact(s: string) returns (a: string)
    ensures s == a + TrimLeft(s) && Blank(a) && (TrimLeft(s) != "" ==> !IsSpace(TrimLeft(s)[0]))
    decreases |s|
  {
    if s != "" && IsSpace(s[0]) {
      var rest := TrimLeftExact(s[1..]);
      a := [s[0]] + rest;
    } else {
      a := "";
    }
  }

  lemma {:induction false} TrimRightExact(s: string) returns (b: string)
    ensures s == TrimRight(s) + b && Blank(b)
    ensures TrimRight(s) != "" ==> TrimRight(s)[0] == s[0] && !IsSpace(TrimRight(s)[|TrimRight(s)| - 1])
    decreases |s|
  {
    if s != "" && IsSpace(s[|s| - 1]) {
      var rest := TrimRightExact(s[..|s| - 1]);
      b := rest + [s[|s| - 1]];
    } else {
      b := "";
    }
  }

  /** So text between blank text is what trimming leaves, if its own ends are not blank. */
  lemma {:induction false} TrimBetween(a: string, core: string, b: string)
    requires Blank(a) && Blank(b) && core != "" && !IsSpace(core[0]) && !IsSpace(core[|core| - 1])
    ensures TrimSpace(a + core + b) == core
    decreases |a| + |b|
  {
    if a != "" {
      assert (a + core + b)[1..] == a[1..] + core + b;
      TrimBetween(a[1..], core, b);
    } else {
      assert a + core + b == core + b;
      TrimRightBetween(core, b);
    }
  }

  lemma {:induction false} TrimRightBetween(core: string, b: string)
    requires Blank(b) && core != "" && !IsSpace(core[|core| - 1])
    ensures TrimRight(core + b) == core
    decreases |b|
  {
    if b != "" {
      assert (core + b)[..|core + b| - 1] == core + b[..|b| - 1];
      TrimRightBetween(core, b[..|b| - 1]);
    } else {
      assert core + b == core;
    }
  }
}
