/** Strings as lists of parts between separators: path components and domain labels. */
module Separated {

  function Split(sep: char, s: string): (parts: seq<string>)
    ensures |parts| >= 1
    ensures forall i :: 0 <= i < |parts| ==> sep !in parts[i]
  {
    if s == "" then [""]
    else
      var rest := Split(sep, s[1..]);
      if s[0] == sep then [""] + rest else [[s[0]] + rest[0]] + rest[1..]
  }

  function Glue(sep: char, parts: seq<string>): string
    requires |parts| >= 1
  {
    if |parts| == 1 then parts[0] else parts[0] + [sep] + Glue(sep, parts[1..])
  }

  lemma {:induction false} GlueSplit(sep: char, s: string)
    ensures Glue(sep, Split(sep, s)) == s
  {
    if s != "" {
      GlueSplit(sep, s[1..]);
      var rest := Split(sep, s[1..]);
      assert s == [s[0]] + s[1..];
      if s[0] == sep {
        assert ([""] + rest)[1..] == rest;
      } else {
        var parts := [[s[0]] + rest[0]] + rest[1..];
        assert parts[1..] == rest[1..];
        assert Glue(sep, parts) == [s[0]] + Glue(sep, rest);
      }
    }
  }

  /** A part and a separator in front of a string is that part in front of its parts. */
  lemma {:induction false} SplitAfter(sep: char, part: string, rest: string)
    requires sep !in part
    ensures Split(sep, part + [sep] + rest) == [part] + Split(sep, rest)
  {
    var s := part + [sep] + rest;
    if part == "" {
      assert s[1..] == rest;
    } else {
      assert s[0] == part[0] && s[1..] == part[1..] + [sep] + rest;
      SplitAfter(sep, part[1..], rest);
      assert [part[0]] + part[1..] == part;
    }
  }

  lemma {:induction false} SplitWhole(sep: char, s: string)
    requires sep !in s
    ensures Split(sep, s) == [s]
  {
    if s != "" {
      SplitWhole(sep, s[1..]);
      assert [s[0]] + s[1..] == s;
    }
  }

  /** The parts of two strings with a separator between them are the parts of the one and then of the other. */
  lemma {:induction false} SplitConcat(sep: char, a: string, b: string)
    ensures Split(sep, a + [sep] + b) == Split(sep, a) + Split(sep, b)
  {
    var s := a + [sep] + b;
    if a == "" {
      assert s[1..] == b;
    } else {
      assert s[0] == a[0] && s[1..] == a[1..] + [sep] + b;
      SplitConcat(sep, a[1..], b);
    }
  }

  /** `part` stands in `s` between separators, or between a separator and an end. */
  predicate Stands(sep: char, s: string, before: string, part: string, after: string) {
    && s == before + part + after
    && (before == "" || before[|before| - 1] == sep) && (after == "" || after[0] == sep)
  }

  lemma PartOf(sep: char, s: string, before: string, part: string, after: string)
    requires sep !in part && Stands(sep, s, before, part, after)
    ensures part in Split(sep, s)
  {
    if after == "" {
      assert part + after == part;
      SplitWhole(sep, part);
    } else {
      assert part + after == part + [sep] + after[1..];
      SplitAfter(sep, part, after[1..]);
    }
    if before == "" {
      assert s == part + after;
    } else {
      var a := before[..|before| - 1];
      assert s == a + [sep] + (part + after);
      SplitConcat(sep, a, part + after);
    }
  }

  lemma StandsAfter(sep: char, head: string, s: string, before: string, part: string, after: string)
    requires Stands(sep, s, before, part, after)
    ensures Stands(sep, head + [sep] + s, head + [sep] + before, part, after)
  {
  }

  lemma {:induction false} PartStands(sep: char, s: string, part: string) returns (before: string, after: string)
    requires part in Split(sep, s)
    ensures Stands(sep, s, before, part, after)
    decreases |s|
  {
    var parts := Split(sep, s);
    GlueSplit(sep, s);
    if |parts| == 1 {
      before, after := "", "";
    } else {
      var rest := Glue(sep, parts[1..]);
      assert s == parts[0] + [sep] + rest;
      SplitAfter(sep, parts[0], rest);
      if part == parts[0] {
        before, after := "", [sep] + rest;
        assert s == before + part + after;
      } else {
        before, after := PartStands(sep, rest, part);
        StandsAfter(sep, parts[0], rest, before, part, after);
        before := parts[0] + [sep] + before;
      }
    }
  }
}
