/**
  The extractor of tldextract.go: the host normaliser `CleanDomain`, the
  label partitioner `Partition` that `Extract` applies to the looked-up
  public suffix, and the two derived views of a `Result`.

  The public-suffix lookup (publicsuffix.PublicSuffix) is a parameter
  `lookup: string -> (string, bool)` giving the suffix and whether it is an
  ICANN suffix.  What the lemmas assume of it is `Aligned`: the suffix is
  the whole host or follows a `.` at the host's end.
 */
module TldExtract {
  import opened GoStrings

  /** The three parts of an extracted domain. */
  datatype Result = Result(Subdomain: string, Domain: string, TLD: string)
  {
    /** The registrable domain: the TLD alone when there is no domain label. */
    function String(): (r: string)
      ensures IsSuffix(TLD, r)
      ensures Domain == "" ==> r == TLD
      ensures Domain != "" ==> |r| == |Domain| + 1 + |TLD| && r[..|Domain|] == Domain && r[|Domain|] == '.'
    {
      if Domain == "" then TLD else Domain + "." + TLD
    }

    /** The non-empty fields, in the order Subdomain, Domain, TLD, joined by `.`. */
    function FQDN(): (r: string)
      ensures r == "" <==> Subdomain == "" && Domain == "" && TLD == ""
      ensures TLD != "" ==> IsSuffix(TLD, r)
      ensures Subdomain != "" ==> Subdomain <= r
    {
      var parts := (if Subdomain != "" then [Subdomain] else [])
                 + (if Domain != "" then [Domain] else [])
                 + (if TLD != "" then [TLD] else []);
      FqdnJoin(parts);
      Join(parts, ".")
    }
  }

  /** Facts about joining the at most three non-empty FQDN parts. */
  lemma FqdnJoin(parts: seq<string>)
    requires |parts| <= 3
    requires forall i :: 0 <= i < |parts| ==> parts[i] != ""
    ensures Join(parts, ".") == "" <==> parts == []
    ensures parts != [] ==> parts[0] <= Join(parts, ".")
    ensures parts != [] ==> IsSuffix(parts[|parts| - 1], Join(parts, "."))
  {
    if parts != [] {
      JoinEnds(parts, ".");
    }
  }

  /** The first step of cleanDomain: drop everything up to the first "://". */
  function StripScheme(domain: string): (r: string)
    ensures IsSuffix(r, domain)
    ensures Contains(domain, "://") ==> Occurs(domain, "://", |domain| - |r| - 3)
    ensures Contains(domain, "://") ==> forall j :: 0 <= j < |domain| - |r| - 3 ==> !Occurs(domain, "://", j)
    ensures !Contains(domain, "://") ==> r == domain
  {
    if Contains(domain, "://") then
      var parts := SplitN2(domain, "://");
      if |parts| == 2 then parts[1] else domain
    else domain
  }

  /** Truncation at the first `c`, as the path and port steps of cleanDomain do it. */
  function CutAt(s: string, c: char): (r: string)
    ensures r <= s && c !in r
    ensures |r| < |s| ==> s[|r|] == c
  {
    IndexChar(s, c);
    match Index(s, [c])
    case Some(idx) => s[..idx]
    case None => s
  }

  /** After the scheme, path, port and trailing-dot steps no `/` or `:` is left. */
  lemma HostChars(domain: string)
    ensures var noPath := CutAt(StripScheme(domain), '/');
            var noPort := CutAt(noPath, ':');
            var trimmed := TrimSuffix(noPort, ".");
            '/' !in trimmed && ':' !in trimmed && |trimmed| <= |domain|
  {
    var noPath := CutAt(StripScheme(domain), '/');
    var noPort := CutAt(noPath, ':');
    var trimmed := TrimSuffix(noPort, ".");
    assert trimmed <= noPort <= noPath;
  }

  /** cleanDomain: strip scheme, path and port and one trailing dot, then lower-case. */
  function CleanDomain(domain: string): (r: string)
    ensures '/' !in r && ':' !in r
    ensures forall i :: 0 <= i < |r| ==> !IsUpper(r[i])
    ensures |r| <= |domain|
  {
    var trimmed := TrimSuffix(CutAt(CutAt(StripScheme(domain), '/'), ':'), ".");
    HostChars(domain);
    ToLowerNonLetter(trimmed, '/');
    ToLowerNonLetter(trimmed, ':');
    ToLower(trimmed)
  }

  /** `t` is what `s` keeps after its first "://", or `s` itself when it has none. */
  ghost predicate AfterScheme(s: string, t: string) {
    || (exists i :: Occurs(s, "://", i) && (forall j :: 0 <= j < i ==> !Occurs(s, "://", j)) && t == s[i + 3..])
    || ((forall j :: !Occurs(s, "://", j)) && t == s)
  }

  /** `h` is the longest prefix of `t` holding neither `/` nor `:`. */
  ghost predicate HostPrefix(t: string, h: string) {
    h <= t && '/' !in h && ':' !in h && (|h| == |t| || t[|h|] == '/' || t[|h|] == ':')
  }

  /** The path and port cuts together stop at the first `/` or `:`, whichever comes first. */
  lemma CutPathThenPort(t: string, h: string)
    requires HostPrefix(t, h)
    ensures CutAt(CutAt(t, '/'), ':') == h
  {
    var noPath := CutAt(t, '/');
    assert |noPath| >= |h|;
    assert h <= noPath;
    var noPort := CutAt(noPath, ':');
    assert |noPort| == |h|;
  }

  /**
    The normaliser cuts the text after the first "://" at the first `/` or
    `:`, whichever comes first, drops one trailing `.`, and lower-cases.
   */
  lemma CleanDomainSpec(s: string, t: string, h: string)
    requires AfterScheme(s, t) && HostPrefix(t, h)
    ensures CleanDomain(s) == ToLower(TrimSuffix(h, "."))
  {
    assert StripScheme(s) == t by {
      if i :| Occurs(s, "://", i) && (forall j :: 0 <= j < i ==> !Occurs(s, "://", j)) && t == s[i + 3..] {
        var k := |s| - |StripScheme(s)| - 3;
        assert k == i;
      }
    }
    CutPathThenPort(t, h);
  }

  /** A bare host (no scheme, path or port) only loses one trailing `.` and its case. */
  lemma CleanBareHost(h: string)
    requires '/' !in h && ':' !in h
    ensures CleanDomain(h) == ToLower(TrimSuffix(h, "."))
  {
    forall j | 0 <= j && j + 3 <= |h| ensures !Occurs(h, "://", j) {
      assert h[j..j + 3][0] == h[j];
    }
    CleanDomainSpec(h, h, h);
  }

  /** `scheme://host` followed by nothing, a path or a port normalises to the host. */
  lemma CleanUrl(scheme: string, host: string, rest: string)
    requires ':' !in scheme && '/' !in host && ':' !in host
    requires rest == "" || rest[0] == '/' || rest[0] == ':'
    ensures CleanDomain(scheme + "://" + host + rest) == ToLower(TrimSuffix(host, "."))
  {
    var s := scheme + "://" + host + rest;
    var i := |scheme|;
    assert s[i..i + 3] == "://";
    forall j | 0 <= j < i ensures !Occurs(s, "://", j) {
      assert s[j..j + 3][0] == s[j] == scheme[j];
    }
    assert s[i + 3..] == host + rest;
    assert Occurs(s, "://", i) && (forall j :: 0 <= j < i ==> !Occurs(s, "://", j));
    assert HostPrefix(host + rest, host);
    CleanDomainSpec(s, host + rest, host);
  }

  /**
    A host with no scheme, followed by nothing, a path or a port (or both, in
    either order) holding no "://", normalises to the host.
   */
  lemma CleanHostRest(host: string, rest: string)
    requires '/' !in host && ':' !in host
    requires rest == "" || rest[0] == '/' || rest[0] == ':'
    requires forall j :: !Occurs(rest, "://", j)
    ensures CleanDomain(host + rest) == ToLower(TrimSuffix(host, "."))
  {
    var s := host + rest;
    forall j | 0 <= j && j + 3 <= |s| ensures !Occurs(s, "://", j) {
      if j < |host| {
        assert s[j..j + 3][0] == s[j] == host[j];
      } else {
        assert s[j..j + 3] == rest[j - |host|..j - |host| + 3];
        assert !Occurs(rest, "://", j - |host|);
      }
    }
    assert HostPrefix(s, host);
    CleanDomainSpec(s, s, host);
  }

  /** A host with no `/`, `:`, upper-case letter or trailing `.` is already normal. */
  lemma CleanDomainOfHost(h: string)
    requires '/' !in h && ':' !in h
    requires forall i :: 0 <= i < |h| ==> !IsUpper(h[i])
    requires h == "" || h[|h| - 1] != '.'
    ensures CleanDomain(h) == h
  {
    CleanBareHost(h);
    assert ToLower(h) == h;
  }

  /**
    A second pass leaves the normalised host unchanged exactly when it does
    not end in `.`: otherwise the second pass drops that `.`.
   */
  lemma CleanDomainIdempotent(s: string)
    ensures CleanDomain(CleanDomain(s)) == CleanDomain(s)
        <==> (CleanDomain(s) == "" || CleanDomain(s)[|CleanDomain(s)| - 1] != '.')
  {
    var r := CleanDomain(s);
    if r != "" && r[|r| - 1] == '.' {
      SecondPassDropsDot(r);
    } else {
      CleanDomainOfHost(r);
    }
  }

  /** A normalised host ending in `.` loses that `.` on a second pass. */
  lemma SecondPassDropsDot(r: string)
    requires '/' !in r && ':' !in r
    requires forall i :: 0 <= i < |r| ==> !IsUpper(r[i])
    requires r != "" && r[|r| - 1] == '.'
    ensures CleanDomain(r) == r[..|r| - 1]
  {
    var h := r[..|r| - 1];
    assert r == h + ".";
    assert forall i :: 0 <= i < |h| ==> h[i] == r[i];
    CleanDottedHost(h);
  }

  /** One trailing `.` is dropped from a lower-case bare host. */
  lemma CleanDottedHost(h: string)
    requires '/' !in h && ':' !in h
    requires forall i :: 0 <= i < |h| ==> !IsUpper(h[i])
    ensures CleanDomain(h + ".") == h
  {
    CleanBareHost(h + ".");
    assert TrimSuffix(h + ".", ".") == h;
    assert ToLower(h) == h;
  }

  /**
    Only one trailing dot goes per pass, so the normaliser is not idempotent:
    a host followed by two dots keeps one of them, and only a second pass
    removes it.
   */
  lemma CleanDomainNotIdempotent(h: string)
    requires '/' !in h && ':' !in h
    requires forall i :: 0 <= i < |h| ==> !IsUpper(h[i])
    ensures CleanDomain(h + "." + ".") == h + "."
    ensures CleanDomain(CleanDomain(h + "." + ".")) == h
    ensures CleanDomain(CleanDomain(h + "." + ".")) != CleanDomain(h + "." + ".")
  {
    assert forall i :: 0 <= i < |h + "."| ==> !IsUpper((h + ".")[i]);
    CleanDottedHost(h + ".");
    CleanDottedHost(h);
  }

  lemma ToLowerCaseEq(a: string, b: string)
    requires CaseEq(a, b)
    ensures ToLower(a) == ToLower(b)
  {
  }

  lemma StripSchemeCaseEq(a: string, b: string)
    requires CaseEq(a, b)
    ensures CaseEq(StripScheme(a), StripScheme(b))
  {
    IndexCaseEq(a, b, "://");
    if Contains(a, "://") {
      var i := Index(a, "://").value;
      var ka := |a| - |StripScheme(a)| - 3;
      var kb := |b| - |StripScheme(b)| - 3;
      assert Occurs(a, "://", ka) && Occurs(a, "://", i);
      assert ka == i;
      assert Occurs(b, "://", kb) && Occurs(b, "://", i);
      assert kb == i;
      assert StripScheme(a) == a[i + 3..] && StripScheme(b) == b[i + 3..];
      CaseEqSlice(a, b, i + 3, |a|);
    }
  }

  lemma CutAtCaseEq(a: string, b: string, c: char)
    requires CaseEq(a, b) && !IsLetter(c)
    ensures CaseEq(CutAt(a, c), CutAt(b, c))
  {
    IndexCaseEq(a, b, [c]);
    IndexChar(a, c);
    match Index(a, [c])
    case None =>
    case Some(idx) => CaseEqSlice(a, b, 0, idx);
  }

  /** The normaliser ignores the case of ASCII letters. */
  lemma CleanDomainCaseInsensitive(a: string, b: string)
    requires CaseEq(a, b)
    ensures CleanDomain(a) == CleanDomain(b)
  {
    StripSchemeCaseEq(a, b);
    var pa, pb := CutAt(StripScheme(a), '/'), CutAt(StripScheme(b), '/');
    CutAtCaseEq(StripScheme(a), StripScheme(b), '/');
    CutAtCaseEq(pa, pb, ':');
    TrimSuffixCaseEq(CutAt(pa, ':'), CutAt(pb, ':'), ".");
    ToLowerCaseEq(TrimSuffix(CutAt(pa, ':'), "."), TrimSuffix(CutAt(pb, ':'), "."));
  }

  /** What the public-suffix lookup guarantees: a label-aligned suffix of the host. */
  predicate Aligned(host: string, suffix: string) {
    host == suffix || IsSuffix("." + suffix, host)
  }

  /**
    The body of Extract once the suffix is known: the host is the suffix
    itself, or `"." + suffix` is trimmed and the rest split on `.`.
   */
  function Partition(host: string, suffix: string): (r: Result)
    ensures r.TLD == suffix
    ensures host == suffix ==> r.Subdomain == "" && r.Domain == ""
  {
    if host == suffix then Result("", "", suffix)
    else
      var rest := TrimSuffix(host, "." + suffix);
      var parts := Split(rest, '.');
      if |parts| == 0 then Result("", "", suffix)
      else
        var name := parts[|parts| - 1];
        var sub := if |parts| > 1 then Join(parts[..|parts| - 1], ".") else "";
        Result(sub, name, suffix)
  }

  /**
    Outside the whole-suffix case the Domain is the last `.`-separated label
    of what precedes the suffix and the Subdomain is everything before it.
   */
  lemma PartitionLabels(host: string, suffix: string)
    requires host != suffix
    ensures var rest := TrimSuffix(host, "." + suffix);
            var r := Partition(host, suffix);
            && '.' !in r.Domain
            && IsSuffix(r.Domain, rest)
            && ('.' in rest ==> rest == r.Subdomain + "." + r.Domain)
            && ('.' !in rest ==> r.Subdomain == "" && r.Domain == rest)
            && ((rest == "" || rest[0] != '.') ==> (r.Subdomain == "" <==> '.' !in rest))
  {
    var rest := TrimSuffix(host, "." + suffix);
    var parts := Split(rest, '.');
    var n := |parts|;
    if n > 1 {
      assert parts == parts[..n - 1] + [parts[n - 1]];
      JoinSnoc(parts[..n - 1], parts[n - 1], ".");
      var sub := Join(parts[..n - 1], ".");
      assert rest == sub + "." + parts[n - 1];
      assert rest[|sub|] == '.';
      SuffixOfConcat(sub + ".", parts[n - 1]);
    } else {
      assert '.' !in rest;
    }
  }

  /** Splitting at the last `.` is unique. */
  lemma LastDotUnique(a: string, b: string, c: string, d: string)
    requires a + "." + b == c + "." + d
    requires '.' !in b && '.' !in d
    ensures a == c && b == d
  {
    var s := a + "." + b;
    assert s[|a|] == '.' && forall k :: |a| < k < |s| ==> s[k] == b[k - |a| - 1];
    assert s[|c|] == '.' && forall k :: |c| < k < |s| ==> s[k] == d[k - |c| - 1];
    assert |a| == |c|;
    assert a == s[..|a|] && c == s[..|c|];
    assert b == s[|a| + 1..] && d == s[|c| + 1..];
  }

  /** A host `label.suffix` has that label as its Domain and no Subdomain. */
  lemma PartitionOfDomain(name: string, suffix: string)
    requires '.' !in name
    ensures Partition(name + "." + suffix, suffix) == Result("", name, suffix)
  {
    var host := name + "." + suffix;
    assert IsSuffix("." + suffix, host) by {
      assert host[|name|..] == "." + suffix;
    }
    assert TrimSuffix(host, "." + suffix) == name;
    PartitionLabels(host, suffix);
  }

  /** Labels before `label.suffix` become the Subdomain, joined as they were. */
  lemma PartitionOfSubdomain(sub: string, name: string, suffix: string)
    requires '.' !in name
    ensures Partition(sub + "." + name + "." + suffix, suffix) == Result(sub, name, suffix)
  {
    var host := sub + "." + name + "." + suffix;
    var rest := sub + "." + name;
    assert host == rest + ("." + suffix);
    assert IsSuffix("." + suffix, host) by {
      assert host[|rest|..] == "." + suffix;
    }
    assert TrimSuffix(host, "." + suffix) == rest;
    PartitionLabels(host, suffix);
    assert rest[|sub|] == '.';
    var r := Partition(host, suffix);
    LastDotUnique(r.Subdomain, r.Domain, sub, name);
  }

  /** Extract: normalise, look up the suffix, partition.  The error result is always nil. */
  function Extract(input: string, lookup: string -> (string, bool)): (r: (Result, Option<string>))
    ensures r.0.TLD == lookup(CleanDomain(input)).0
    ensures r.0 == Partition(CleanDomain(input), lookup(CleanDomain(input)).0)
    ensures r.1 == None
  {
    var domain := CleanDomain(input);
    var (found, icann) := lookup(domain);
    var suffix := if !icann then lookup(domain).0 else found;
    (Partition(domain, suffix), None)
  }

  /** ExtractFromURL is Extract under another name. */
  function ExtractFromURL(url: string, lookup: string -> (string, bool)): (r: (Result, Option<string>))
    ensures r == Extract(url, lookup)
  {
    Extract(url, lookup)
  }

  /** Extraction ignores the case of ASCII letters in its input. */
  lemma ExtractCaseInsensitive(a: string, b: string, lookup: string -> (string, bool))
    requires CaseEq(a, b)
    ensures Extract(a, lookup) == Extract(b, lookup)
  {
    CleanDomainCaseInsensitive(a, b);
  }

  /** Upper-casing the input does not change the extraction. */
  lemma ExtractIgnoresUpper(s: string, lookup: string -> (string, bool))
    ensures Extract(ToUpper(s), lookup) == Extract(s, lookup)
  {
    UpperCaseEq(s);
    ExtractCaseInsensitive(ToUpper(s), s, lookup);
  }

  /** Every label of `host` is non-empty. */
  predicate NonEmptyLabels(host: string) {
    && host != ""
    && host[0] != '.'
    && host[|host| - 1] != '.'
    && forall i :: 0 <= i < |host| - 1 ==> !(host[i] == '.' && host[i + 1] == '.')
  }

  /** `a` and `b` joined by `.`, or the non-empty one alone when the other is empty. */
  function Dot(a: string, b: string): (r: string)
    ensures a == "" ==> r == b
    ensures b == "" ==> r == a
    ensures a != "" && b != "" ==> r == a + "." + b
  {
    if a == "" then b else if b == "" then a else a + "." + b
  }

  /** The FQDN part list contribution of one field: nothing when it is empty. */
  function Opt(x: string): seq<string> {
    if x == "" then [] else [x]
  }

  /** Appending a possibly empty field to a join is `Dot` of the join and the field. */
  lemma JoinOpt(parts: seq<string>, x: string)
    requires parts == [] <==> Join(parts, ".") == ""
    ensures Join(parts + Opt(x), ".") == Dot(Join(parts, "."), x)
  {
    if x == "" {
      assert parts + Opt(x) == parts;
    } else if parts == [] {
      assert parts + Opt(x) == [x];
    } else {
      JoinSnoc(parts, x, ".");
    }
  }

  /**
    The FQDN of every result: the non-empty fields, in order, with a `.`
    between each two, whichever of them are empty.
   */
  lemma FqdnClosedForm(r: Result)
    ensures r.FQDN() == Dot(Dot(r.Subdomain, r.Domain), r.TLD)
  {
    var s, d, t := r.Subdomain, r.Domain, r.TLD;
    assert r.FQDN() == Join(Opt(s) + Opt(d) + Opt(t), ".");
    JoinOpt([], s);
    assert [] + Opt(s) == Opt(s);
    JoinOpt(Opt(s), d);
    JoinOpt(Opt(s) + Opt(d), t);
  }

  /** The FQDN of a result with a Domain and a TLD. */
  lemma FqdnWithDomain(r: Result)
    requires r.Domain != "" && r.TLD != ""
    ensures r.FQDN() == (if r.Subdomain == "" then "" else r.Subdomain + ".") + r.Domain + "." + r.TLD
  {
    if r.Subdomain == "" {
      assert [] + [r.Domain] + [r.TLD] == [r.Domain, r.TLD];
      JoinTwo(r.Domain, r.TLD, ".");
    } else {
      assert [r.Subdomain] + [r.Domain] + [r.TLD] == [r.Subdomain, r.Domain, r.TLD];
      JoinThree(r.Subdomain, r.Domain, r.TLD, ".");
    }
  }

  /** Outside the whole-suffix case an aligned host is what precedes the suffix, a dot, and the suffix. */
  lemma AlignedRest(host: string, suffix: string)
    requires Aligned(host, suffix) && host != suffix
    ensures host == TrimSuffix(host, "." + suffix) + "." + suffix
  {
  }

  /** What precedes an aligned suffix in a host of non-empty labels is itself made of non-empty labels. */
  lemma RestOfNonEmptyLabels(host: string, suffix: string)
    requires Aligned(host, suffix) && host != suffix && NonEmptyLabels(host)
    ensures suffix != ""
    ensures var rest := TrimSuffix(host, "." + suffix);
            rest != "" && rest[0] != '.' && rest[|rest| - 1] != '.'
  {
    var rest := TrimSuffix(host, "." + suffix);
    AlignedRest(host, suffix);
    assert host[|rest|] == '.';
    assert rest != "";
    assert host[|rest| - 1] == rest[|rest| - 1];
  }

  /** For a host of non-empty labels and an aligned suffix, the FQDN rebuilds the host. */
  lemma FqdnReconstructsHost(host: string, suffix: string)
    requires Aligned(host, suffix) && NonEmptyLabels(host)
    ensures Partition(host, suffix).FQDN() == host
  {
    var r := Partition(host, suffix);
    if host == suffix {
      assert r.FQDN() == Join([host], ".");
    } else {
      var rest := TrimSuffix(host, "." + suffix);
      AlignedRest(host, suffix);
      RestOfNonEmptyLabels(host, suffix);
      PartitionLabels(host, suffix);
      if '.' in rest {
        assert r.Subdomain != "" && r.Domain != "" by {
          assert rest == r.Subdomain + "." + r.Domain;
          assert rest[0] == (r.Subdomain + "." + r.Domain)[0];
          assert rest[|rest| - 1] == (r.Subdomain + "." + r.Domain)[|rest| - 1];
        }
      }
      FqdnWithDomain(r);
    }
  }

  /** Below a suffix it does not equal, a host is some prefix followed by its registrable domain. */
  lemma RegistrablePrefix(host: string, suffix: string) returns (pre: string)
    requires Aligned(host, suffix) && host != suffix
    ensures host == pre + Partition(host, suffix).String()
  {
    var r := Partition(host, suffix);
    var rest := TrimSuffix(host, "." + suffix);
    AlignedRest(host, suffix);
    PartitionLabels(host, suffix);
    if r.Domain != "" {
      pre := rest[..|rest| - |r.Domain|];
      assert rest == pre + r.Domain;
      assert r.String() == r.Domain + "." + suffix;
      Regroup(pre, r.Domain, ".", suffix);
    } else {
      pre := rest + ".";
      assert r.String() == suffix;
    }
  }

  /**
    The registrable domain is a suffix of the host that itself ends in the
    public suffix.
   */
  lemma RegistrableIsSuffix(host: string, suffix: string)
    requires Aligned(host, suffix)
    ensures IsSuffix(Partition(host, suffix).String(), host)
    ensures IsSuffix(suffix, Partition(host, suffix).String())
  {
    if host != suffix {
      var pre := RegistrablePrefix(host, suffix);
      SuffixOfConcat(pre, Partition(host, suffix).String());
    }
  }
}
