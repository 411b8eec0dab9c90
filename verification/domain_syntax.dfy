/** The domain-name syntax gate applied before any lookup: the regular
    expression `^([a-zA-Z0-9-_]+\.){1}[a-zA-Z]{2,63}$`, restated as a
    predicate on strings. The class `[a-zA-Z0-9-_]` holds letters, digits,
    `-` and `_` (the `-` after a range is literal). */
module DomainSyntax {

  predicate IsAsciiLetter(c: char) {
    'a' <= c <= 'z' || 'A' <= c <= 'Z'
  }

  predicate IsLabelChar(c: char) {
    IsAsciiLetter(c) || '0' <= c <= '9' || c == '-' || c == '_'
  }

  /** One or more characters of the host class: `[a-zA-Z0-9-_]+`. */
  predicate IsLabel(s: string) {
    1 <= |s| && forall i :: 0 <= i < |s| ==> IsLabelChar(s[i])
  }

  /** Two to sixty-three ASCII letters: `[a-zA-Z]{2,63}`. */
  predicate IsTld(s: string) {
    2 <= |s| <= 63 && forall i :: 0 <= i < |s| ==> IsAsciiLetter(s[i])
  }

  /** The language of the regular expression: a label, one dot, a top-level
      domain, and nothing before or after. */
  ghost predicate MatchesDomainPattern(s: string) {
    exists i :: 0 <= i < |s| && s[i] == '.' && IsLabel(s[..i]) && IsTld(s[i + 1..])
  }

  /** Length of the longest prefix made of host characters. */
  function LabelRunLength(s: string): (n: nat)
    ensures n <= |s|
    ensures forall k :: 0 <= k < n ==> IsLabelChar(s[k])
    ensures n < |s| ==> !IsLabelChar(s[n])
  {
    if |s| == 0 || !IsLabelChar(s[0]) then 0 else 1 + LabelRunLength(s[1..])
  }

  /** The dot of any label-dot-rest split sits where the run of label
      characters ends, so the split is unique. */
  lemma {:induction false} SplitAtLabelRun(s: string)
    ensures forall i :: 0 <= i < |s| && s[i] == '.' && IsLabel(s[..i]) ==> i == LabelRunLength(s)
  {
    var n := LabelRunLength(s);
    forall i | 0 <= i < |s| && s[i] == '.' && IsLabel(s[..i])
      ensures i == n
    {
      assert forall k :: 0 <= k < i ==> s[..i][k] == s[k];
    }
  }

  /** `isValidDomain`: accepts exactly the strings the regular expression
      matches. */
  function IsValidDomain(s: string): (ok: bool)
    ensures ok <==> MatchesDomainPattern(s)
  {
    var n := LabelRunLength(s);
    SplitAtLabelRun(s);
    if 0 < n < |s| && s[n] == '.' && IsTld(s[n + 1..]) then
      assert IsLabel(s[..n]);
      true
    else
      false
  }

  /** Number of occurrences of `c` in `s`. */
  function Count(s: string, c: char): nat {
    if |s| == 0 then 0 else (if s[0] == c then 1 else 0) + Count(s[1..], c)
  }

  lemma {:induction false} CountAppend(a: string, b: string, c: char)
    ensures Count(a + b, c) == Count(a, c) + Count(b, c)
  {
    if |a| == 0 {
      assert a + b == b;
    } else {
      assert (a + b)[0] == a[0];
      assert (a + b)[1..] == a[1..] + b;
      CountAppend(a[1..], b, c);
    }
  }

  lemma {:induction false} CountAbsent(s: string, c: char)
    requires forall i :: 0 <= i < |s| ==> s[i] != c
    ensures Count(s, c) == 0
  {
    if |s| > 0 {
      CountAbsent(s[1..], c);
    }
  }

  /** An accepted name splits uniquely as label, dot, top-level domain. */
  lemma ValidDomainSplit(host: string, tld: string)
    requires IsLabel(host)
    ensures IsValidDomain(host + "." + tld) <==> IsTld(tld)
  {
    var s := host + "." + tld;
    var n := LabelRunLength(s);
    assert s[|host|] == '.';
    assert n == |host|;
    assert s[n + 1..] == tld;
  }

  /** Every accepted name contains exactly one dot. */
  lemma ValidDomainHasOneDot(s: string)
    requires IsValidDomain(s)
    ensures Count(s, '.') == 1
  {
    var n := LabelRunLength(s);
    var host, tld := s[..n], s[n + 1..];
    assert s == host + "." + tld;
    CountAppend(host, "." + tld, '.');
    CountAppend(".", tld, '.');
    CountAbsent(host, '.');
    CountAbsent(tld, '.');
  }

  /** Names with zero or several dots are rejected, so multi-host names
      such as `www.example.com` never pass. */
  lemma RejectsOtherDotCounts(s: string)
    requires Count(s, '.') != 1
    ensures !IsValidDomain(s)
  {
    if IsValidDomain(s) {
      ValidDomainHasOneDot(s);
    }
  }

  /** A top-level domain of one letter, of more than 63 letters, or holding
      a digit makes the name invalid, whatever the label. */
  lemma RejectsBadTld(host: string, tld: string)
    requires IsLabel(host)
    requires |tld| < 2 || |tld| > 63 || exists i :: 0 <= i < |tld| && '0' <= tld[i] <= '9'
    ensures !IsValidDomain(host + "." + tld)
  {
    ValidDomainSplit(host, tld);
  }

  lemma AcceptsSerpNames()
    ensures IsValidDomain("SerpNames.com")
  {
    var host, tld := "SerpNames", "com";
    assert IsLabel(host) by {
      forall k | 0 <= k < |host| ensures IsLabelChar(host[k]) {
        assert IsAsciiLetter(host[k]);
      }
    }
    assert IsTld(tld);
    assert "SerpNames.com" == host + "." + tld;
    ValidDomainSplit(host, tld);
  }

  lemma RejectsSubdomain()
    ensures !IsValidDomain("www.example.com")
  {
    var s := "www.example.com";
    assert s[3] == '.' && s[11] == '.';
    assert s == "www" + "." + "example" + "." + "com";
    CountAppend("www" + "." + "example" + ".", "com", '.');
    CountAppend("www" + "." + "example", ".", '.');
    CountAppend("www" + ".", "example", '.');
    CountAppend("www", ".", '.');
    RejectsOtherDotCounts(s);
  }

  lemma RejectsShortTld()
    ensures !IsValidDomain("example.c")
  {
    assert IsLabel("example");
    assert "example.c" == "example" + "." + "c";
    RejectsBadTld("example", "c");
  }

  lemma RejectsDigitInTld()
    ensures !IsValidDomain("example.c0m")
  {
    assert IsLabel("example");
    assert "example.c0m" == "example" + "." + "c0m";
    assert "c0m"[1] == '0';
    RejectsBadTld("example", "c0m");
  }
}
