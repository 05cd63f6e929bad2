/**
 Whether a certificate's subject alternative names cover a domain. The code compares strings, a suffix
 and two counts of dots; what is meant is section 6.4.3 of RFC 6125, which speaks of labels.
 */
module DnsVerify {

  import Separated

  function Labels(s: string): seq<string> { Separated.Split('.', s) }

  function CountDots(s: string): nat { if s == "" then 0 else (if s[0] == '.' then 1 else 0) + CountDots(s[1..]) }

  predicate HasSuffix(s: string, suffix: string) { |suffix| <= |s| && s[|s| - |suffix|..] == suffix }

  /** The string test for a wildcard name with the given base. */
  predicate OneLabelAbove(base: string, domain: string) {
    HasSuffix(domain, "." + base) && CountDots(domain) == CountDots(base) + 1
  }

  /** By labels: a leftmost label `*`, then labels without `*`, which the domain has too under one label of its own. */
  predicate WildcardCovers(san: string, domain: string) {
    var pattern, name := Labels(san), Labels(domain);
    && |pattern| >= 2 && pattern[0] == "*" && pattern[1..] != [""]
    && (forall i :: 1 <= i < |pattern| ==> '*' !in pattern[i])
    && |name| == |pattern| && name[1..] == pattern[1..]
  }

  predicate Covers(san: string, domain: string) { san == domain || WildcardCovers(san, domain) }

  lemma {:induction false} CountIsLabels(s: string)
    ensures CountDots(s) == |Labels(s)| - 1
  {
    if s != "" {
      CountIsLabels(s[1..]);
    }
  }

  lemma {:induction false} CountConcat(a: string, b: string)
    ensures CountDots(a + b) == CountDots(a) + CountDots(b)
  {
    if a == "" {
      assert a + b == b;
    } else {
      assert (a + b)[1..] == a[1..] + b;
      CountConcat(a[1..], b);
    }
  }

  lemma {:induction false} NoDots(s: string)
    requires CountDots(s) == 0
    ensures '.' !in s
  {
    if s != "" {
      NoDots(s[1..]);
    }
  }

  /** The suffix and the dot counts say exactly: the base's labels under one more label. */
  lemma OneLabelAboveIff(base: string, domain: string)
    ensures OneLabelAbove(base, domain) <==>
      |Labels(domain)| == |Labels(base)| + 1 && Labels(domain)[1..] == Labels(base)
  {
    CountIsLabels(domain);
    CountIsLabels(base);
    if OneLabelAbove(base, domain) {
      var label0 := domain[..|domain| - |base| - 1];
      assert domain == label0 + ("." + base);
      CountConcat(label0, "." + base);
      assert ("." + base)[1..] == base;
      NoDots(label0);
      assert domain == label0 + ['.'] + base;
      Separated.SplitAfter('.', label0, base);
    }
    if |Labels(domain)| == |Labels(base)| + 1 && Labels(domain)[1..] == Labels(base) {
      Separated.GlueSplit('.', domain);
      Separated.GlueSplit('.', base);
      assert domain == Labels(domain)[0] + ['.'] + base;
      assert domain[|Labels(domain)[0]|..] == "." + base;
    }
  }

  lemma WildcardBase(s: string)
    requires "*." <= s
    ensures Labels(s) == ["*"] + Labels(s[2..])
  {
    assert s == "*" + ['.'] + s[2..];
    Separated.SplitAfter('.', "*", s[2..]);
  }

  lemma StarLabel(s: string)
    requires |Labels(s)| >= 2 && Labels(s)[0] == "*"
    ensures "*." <= s
  {
    Separated.GlueSplit('.', s);
    assert s == "*" + ['.'] + Separated.Glue('.', Labels(s)[1..]);
    assert s[..2] == "*.";
  }

  lemma EmptyLabels(s: string)
    ensures Labels(s) == [""] <==> s == ""
  {
    Separated.GlueSplit('.', s);
  }

  lemma StarFreeStep(s: string)
    requires s != "" && ('*' !in s[1..] <==> forall i :: 0 <= i < |Labels(s[1..])| ==> '*' !in Labels(s[1..])[i])
    ensures '*' !in s <==> forall i :: 0 <= i < |Labels(s)| ==> '*' !in Labels(s)[i]
  {
    var rest := Labels(s[1..]);
    assert s == [s[0]] + s[1..];
    if s[0] == '.' {
      assert Labels(s) == [""] + rest;
      assert forall i :: 0 <= i < |rest| ==> Labels(s)[i + 1] == rest[i];
    } else {
      assert Labels(s)[0] == [s[0]] + rest[0];
      assert forall i :: 1 <= i < |rest| ==> Labels(s)[i] == rest[i];
      assert '*' in Labels(s)[0] <==> s[0] == '*' || '*' in rest[0];
    }
  }

  lemma {:induction false} StarFree(s: string)
    ensures '*' !in s <==> forall i :: 0 <= i < |Labels(s)| ==> '*' !in Labels(s)[i]
  {
    if s != "" {
      StarFree(s[1..]);
      StarFreeStep(s);
    }
  }

  /** For a name that starts as a wildcard, the string tests say what the labels say. */
  lemma WildcardIff(s: string, domain: string)
    requires "*." <= s
    ensures WildcardCovers(s, domain) <==> s[2..] != "" && '*' !in s[2..] && OneLabelAbove(s[2..], domain)
  {
    var base := s[2..];
    WildcardBase(s);
    EmptyLabels(base);
    StarFree(base);
    OneLabelAboveIff(base, domain);
    assert Labels(s)[1..] == Labels(base);
    assert forall i :: 0 <= i < |Labels(base)| ==> Labels(s)[i + 1] == Labels(base)[i];
  }

  method SanContains(sans: seq<string>, domain: string) returns (found: bool)
    ensures found <==> domain != "" && exists i :: 0 <= i < |sans| && Covers(sans[i], domain)
  {
    if domain == "" {
      return false;
    }
    for i := 0 to |sans|
      invariant forall j :: 0 <= j < i ==> !Covers(sans[j], domain)
    {
      var s := sans[i];
      if s == domain {
        return true;
      }
      if "*." <= s {
        var base := s[2..];
        WildcardIff(s, domain);
        if base == "" || '*' in base {
          continue;
        }
        if !HasSuffix(domain, "." + base) {
          continue;
        }
        if CountDots(domain) == CountDots(base) + 1 {
          return true;
        }
      } else if WildcardCovers(s, domain) {
        StarLabel(s);
      }
    }
    return false;
  }

  /** The label of its own that a covered domain has may be empty; it is when the domain begins with a dot. */
  lemma EmptyLabelIff(san: string, domain: string)
    requires WildcardCovers(san, domain)
    ensures domain != "" && (Labels(domain)[0] == "" <==> domain[0] == '.')
  {
    Separated.GlueSplit('.', domain);
  }

  /** And every wildcard name covers such a domain. */
  lemma EmptyLabelCovered(base: string)
    requires base != "" && '*' !in base
    ensures WildcardCovers("*." + base, "." + base)
  {
    assert ("*." + base)[2..] == base && ("." + base)[1..] == base;
    WildcardIff("*." + base, "." + base);
  }
}
