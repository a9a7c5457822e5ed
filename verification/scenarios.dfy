/**
  The repository's test cases, stated as lemmas about the model with a stand-in
  for the public-suffix list that knows com, co.uk, co.jp, com.br and the
  private suffix github.io.
 */
module TldExtractScenarios {
  import opened GoStrings
  import opened TldExtract

  /** The last `.`-separated label of a host: the list's default rule. */
  function LastLabel(host: string): (l: string)
    ensures Aligned(host, l)
  {
    var parts := Split(host, '.');
    var n := |parts|;
    if n > 1 then
      assert parts == parts[..n - 1] + [parts[n - 1]];
      JoinSnoc(parts[..n - 1], parts[n - 1], ".");
      assert host == Join(parts[..n - 1], ".") + ("." + parts[n - 1]);
      parts[n - 1]
    else parts[0]
  }

  /** A small public-suffix list: the longest known suffix, else the last label. */
  function KnownSuffix(host: string): (r: (string, bool))
    ensures Aligned(host, r.0)
  {
    if Aligned(host, "github.io") then ("github.io", false)
    else if Aligned(host, "co.uk") then ("co.uk", true)
    else if Aligned(host, "co.jp") then ("co.jp", true)
    else if Aligned(host, "com.br") then ("com.br", true)
    else if Aligned(host, "com") then ("com", true)
    else (LastLabel(host), false)
  }

  /** The five suffixes the stand-in list knows. */
  predicate KnownRule(rule: string) {
    rule == "github.io" || rule == "co.uk" || rule == "co.jp" || rule == "com.br" || rule == "com"
  }

  /** A rule whose last character is not the host's does not match it. */
  lemma LastCharDiffers(host: string, rule: string)
    requires host != "" && rule != "" && host[|host| - 1] != rule[|rule| - 1]
    ensures !Aligned(host, rule)
  {
  }

  /** A host ending in `.` and a rule is aligned with that rule. */
  lemma AlignedBelow(pre: string, rule: string)
    ensures Aligned(pre + "." + rule, rule)
  {
    assert pre + "." + rule == pre + ("." + rule);
    SuffixOfConcat(pre, "." + rule);
  }

  /**
    Each known rule is the one the list picks for a host aligned with it: no
    two known rules end in the same character, so no other rule matches.
   */
  lemma KnownSuffixPicks(host: string, rule: string)
    requires KnownRule(rule) && Aligned(host, rule)
    ensures KnownSuffix(host).0 == rule
  {
    assert host[|host| - 1] == rule[|rule| - 1];
    if rule != "github.io" {
      LastCharDiffers(host, "github.io");
    }
    if rule != "co.uk" {
      LastCharDiffers(host, "co.uk");
    }
    if rule != "co.jp" {
      LastCharDiffers(host, "co.jp");
    }
    if rule != "com.br" {
      LastCharDiffers(host, "com.br");
    }
  }

  /** An input that normalises to `label.rule` for a known rule. */
  lemma ExtractsDomain(input: string, host: string, name: string, rule: string)
    requires KnownRule(rule) && '.' !in name && name != ""
    requires CleanDomain(input) == host && host == name + "." + rule
    ensures Extract(input, KnownSuffix).0 == Result("", name, rule)
    ensures Extract(input, KnownSuffix).0.FQDN() == host
  {
    AlignedBelow(name, rule);
    KnownSuffixPicks(name + "." + rule, rule);
    PartitionOfDomain(name, rule);
    FqdnWithDomain(Result("", name, rule));
  }

  /** An input that normalises to `sub.label.rule` for a known rule. */
  lemma ExtractsSubdomain(input: string, host: string, sub: string, name: string, rule: string)
    requires KnownRule(rule) && '.' !in name && name != "" && sub != ""
    requires CleanDomain(input) == host && host == sub + "." + name + "." + rule
    ensures Extract(input, KnownSuffix).0 == Result(sub, name, rule)
    ensures Extract(input, KnownSuffix).0.FQDN() == host
  {
    AlignedBelow(sub + "." + name, rule);
    KnownSuffixPicks(sub + "." + name + "." + rule, rule);
    PartitionOfSubdomain(sub, name, rule);
    FqdnWithDomain(Result(sub, name, rule));
  }

  /** A lower-case host behind a scheme and before a path or port is what remains. */
  lemma CleanUrlOfHost(scheme: string, host: string, rest: string)
    requires ':' !in scheme && '/' !in host && ':' !in host
    requires forall i :: 0 <= i < |host| ==> !IsUpper(host[i])
    requires host == "" || host[|host| - 1] != '.'
    requires rest == "" || rest[0] == '/' || rest[0] == ':'
    ensures CleanDomain(scheme + "://" + host + rest) == host
  {
    CleanUrl(scheme, host, rest);
    assert ToLower(host) == host;
  }

  /** A lower-case host followed by a path or a port, with no scheme, is what remains. */
  lemma CleanHostRestOfHost(host: string, rest: string)
    requires '/' !in host && ':' !in host
    requires forall i :: 0 <= i < |host| ==> !IsUpper(host[i])
    requires host == "" || host[|host| - 1] != '.'
    requires rest == "" || rest[0] == '/' || rest[0] == ':'
    requires ':' !in rest || '/' !in rest
    ensures CleanDomain(host + rest) == host
  {
    forall j | 0 <= j && j + 3 <= |rest| ensures !Occurs(rest, "://", j) {
      assert rest[j..j + 3][0] == rest[j] && rest[j..j + 3][1] == rest[j + 1];
    }
    CleanHostRest(host, rest);
    assert ToLower(host) == host;
  }

  // Literal facts, one per lemma, so that each scenario below only combines them.

  lemma KnownRules()
    ensures KnownRule("com") && KnownRule("co.uk") && KnownRule("github.io")
    ensures KnownRule("co.jp") && KnownRule("com.br")
  {
  }

  lemma LabelExample()
    ensures '.' !in "example"
  {
  }

  lemma LabelUsername()
    ensures '.' !in "username"
  {
  }

  // tldextract_test.go, TestExtract

  lemma CleanExampleCom()
    ensures CleanDomain("example.com") == "example.com"
  {
    CleanDomainOfHost("example.com");
  }

  lemma SpellExampleCom()
    ensures "example" + "." + "com" == "example.com"
  {
  }

  lemma SimpleDomain()
    ensures Extract("example.com", KnownSuffix).0 == Result("", "example", "com")
    ensures Extract("example.com", KnownSuffix).0.FQDN() == "example.com"
  {
    CleanExampleCom();
    SpellExampleCom();
    LabelExample();
    KnownRules();
    ExtractsDomain("example.com", "example.com", "example", "com");
  }

  lemma CleanWwwExampleCom()
    ensures CleanDomain("www.example.com") == "www.example.com"
  {
    CleanDomainOfHost("www.example.com");
  }

  lemma SpellWwwExampleCom()
    ensures "www" + "." + "example" + "." + "com" == "www.example.com"
  {
  }

  lemma Subdomain()
    ensures Extract("www.example.com", KnownSuffix).0 == Result("www", "example", "com")
    ensures Extract("www.example.com", KnownSuffix).0.FQDN() == "www.example.com"
  {
    CleanWwwExampleCom();
    SpellWwwExampleCom();
    LabelExample();
    KnownRules();
    ExtractsSubdomain("www.example.com", "www.example.com", "www", "example", "com");
  }

  lemma CleanManyLabels()
    ensures CleanDomain("api.v2.staging.example.com") == "api.v2.staging.example.com"
  {
    CleanDomainOfHost("api.v2.staging.example.com");
  }

  lemma SpellManyLabels()
    ensures "api.v2.staging" + "." + "example" + "." + "com" == "api.v2.staging.example.com"
  {
  }

  lemma ComplexSubdomain()
    ensures Extract("api.v2.staging.example.com", KnownSuffix).0 == Result("api.v2.staging", "example", "com")
    ensures Extract("api.v2.staging.example.com", KnownSuffix).0.FQDN() == "api.v2.staging.example.com"
  {
    CleanManyLabels();
    SpellManyLabels();
    LabelExample();
    KnownRules();
    ExtractsSubdomain("api.v2.staging.example.com", "api.v2.staging.example.com", "api.v2.staging", "example", "com");
  }

  lemma CleanExampleCoUk()
    ensures CleanDomain("example.co.uk") == "example.co.uk"
  {
    CleanDomainOfHost("example.co.uk");
  }

  lemma SpellExampleCoUk()
    ensures "example" + "." + "co.uk" == "example.co.uk"
  {
  }

  lemma UkDomain()
    ensures Extract("example.co.uk", KnownSuffix).0 == Result("", "example", "co.uk")
    ensures Extract("example.co.uk", KnownSuffix).0.FQDN() == "example.co.uk"
  {
    CleanExampleCoUk();
    SpellExampleCoUk();
    LabelExample();
    KnownRules();
    ExtractsDomain("example.co.uk", "example.co.uk", "example", "co.uk");
  }

  lemma CleanGithubPages()
    ensures CleanDomain("username.github.io") == "username.github.io"
  {
    CleanDomainOfHost("username.github.io");
  }

  lemma SpellGithubPages()
    ensures "username" + "." + "github.io" == "username.github.io"
  {
  }

  lemma GithubPagesDomain()
    ensures Extract("username.github.io", KnownSuffix).0 == Result("", "username", "github.io")
    ensures Extract("username.github.io", KnownSuffix).0.FQDN() == "username.github.io"
  {
    CleanGithubPages();
    SpellGithubPages();
    LabelUsername();
    KnownRules();
    ExtractsDomain("username.github.io", "username.github.io", "username", "github.io");
  }

  lemma JustTld()
    ensures Extract("com", KnownSuffix).0 == Result("", "", "com")
    ensures Extract("com", KnownSuffix).0.FQDN() == "com"
  {
    CleanDomainOfHost("com");
    KnownSuffixPicks("com", "com");
    assert Result("", "", "com").FQDN() == Join(["com"], ".");
  }

  lemma SpellTrailingDot()
    ensures "example.com" + "." == "example.com."
  {
  }

  lemma TrailingDot()
    ensures Extract("example.com.", KnownSuffix).0 == Result("", "example", "com")
    ensures Extract("example.com.", KnownSuffix).0.FQDN() == "example.com"
  {
    CleanDottedHost("example.com");
    SpellTrailingDot();
    SpellExampleCom();
    LabelExample();
    KnownRules();
    ExtractsDomain("example.com.", "example.com", "example", "com");
  }

  lemma MixedCase()
    ensures Extract("WWW.EXAMPLE.COM", KnownSuffix).0 == Result("www", "example", "com")
    ensures Extract("WWW.EXAMPLE.COM", KnownSuffix).0.FQDN() == "www.example.com"
  {
    assert CaseEq("WWW.EXAMPLE.COM", "www.example.com");
    ExtractCaseInsensitive("WWW.EXAMPLE.COM", "www.example.com", KnownSuffix);
    Subdomain();
  }

  lemma SpellUrlWithPort()
    ensures "https" + "://" + "www.example.com" + ":8080" == "https://www.example.com:8080"
  {
  }

  lemma UrlWithPort()
    ensures Extract("https://www.example.com:8080", KnownSuffix).0 == Result("www", "example", "com")
    ensures Extract("https://www.example.com:8080", KnownSuffix).0.FQDN() == "www.example.com"
  {
    CleanUrlOfHost("https", "www.example.com", ":8080");
    SpellUrlWithPort();
    SpellWwwExampleCom();
    LabelExample();
    KnownRules();
    ExtractsSubdomain("https://www.example.com:8080", "www.example.com", "www", "example", "com");
  }

  lemma CleanMultipleSubdomains()
    ensures CleanDomain("a.b.c.example.com") == "a.b.c.example.com"
  {
    CleanDomainOfHost("a.b.c.example.com");
  }

  lemma SpellMultipleSubdomains()
    ensures "a.b.c" + "." + "example" + "." + "com" == "a.b.c.example.com"
  {
  }

  lemma MultipleSubdomains()
    ensures Extract("a.b.c.example.com", KnownSuffix).0 == Result("a.b.c", "example", "com")
    ensures Extract("a.b.c.example.com", KnownSuffix).0.FQDN() == "a.b.c.example.com"
  {
    CleanMultipleSubdomains();
    SpellMultipleSubdomains();
    LabelExample();
    KnownRules();
    ExtractsSubdomain("a.b.c.example.com", "a.b.c.example.com", "a.b.c", "example", "com");
  }

  lemma CleanWwwExampleCoUk()
    ensures CleanDomain("www.example.co.uk") == "www.example.co.uk"
  {
    CleanDomainOfHost("www.example.co.uk");
  }

  lemma SpellWwwExampleCoUk()
    ensures "www" + "." + "example" + "." + "co.uk" == "www.example.co.uk"
  {
  }

  lemma UkSubdomain()
    ensures Extract("www.example.co.uk", KnownSuffix).0 == Result("www", "example", "co.uk")
    ensures Extract("www.example.co.uk", KnownSuffix).0.FQDN() == "www.example.co.uk"
  {
    CleanWwwExampleCoUk();
    SpellWwwExampleCoUk();
    LabelExample();
    KnownRules();
    ExtractsSubdomain("www.example.co.uk", "www.example.co.uk", "www", "example", "co.uk");
  }

  lemma SpellUrlWithProtocol()
    ensures "https" + "://" + "www.example.com" + "" == "https://www.example.com"
  {
  }

  lemma UrlWithProtocol()
    ensures Extract("https://www.example.com", KnownSuffix).0 == Result("www", "example", "com")
    ensures Extract("https://www.example.com", KnownSuffix).0.FQDN() == "www.example.com"
  {
    CleanUrlOfHost("https", "www.example.com", "");
    SpellUrlWithProtocol();
    SpellWwwExampleCom();
    LabelExample();
    KnownRules();
    ExtractsSubdomain("https://www.example.com", "www.example.com", "www", "example", "com");
  }

  lemma SpellUrlWithPath()
    ensures "https" + "://" + "www.example.com" + "/path/to/page" == "https://www.example.com/path/to/page"
  {
  }

  lemma UrlWithPath()
    ensures Extract("https://www.example.com/path/to/page", KnownSuffix).0 == Result("www", "example", "com")
    ensures Extract("https://www.example.com/path/to/page", KnownSuffix).0.FQDN() == "www.example.com"
  {
    CleanUrlOfHost("https", "www.example.com", "/path/to/page");
    SpellUrlWithPath();
    SpellWwwExampleCom();
    LabelExample();
    KnownRules();
    ExtractsSubdomain("https://www.example.com/path/to/page", "www.example.com", "www", "example", "com");
  }

  lemma CleanExampleCoJp()
    ensures CleanDomain("example.co.jp") == "example.co.jp"
  {
    CleanDomainOfHost("example.co.jp");
  }

  lemma SpellExampleCoJp()
    ensures "example" + "." + "co.jp" == "example.co.jp"
  {
  }

  lemma JapaneseDomain()
    ensures Extract("example.co.jp", KnownSuffix).0 == Result("", "example", "co.jp")
    ensures Extract("example.co.jp", KnownSuffix).0.FQDN() == "example.co.jp"
  {
    CleanExampleCoJp();
    SpellExampleCoJp();
    LabelExample();
    KnownRules();
    ExtractsDomain("example.co.jp", "example.co.jp", "example", "co.jp");
  }

  lemma CleanExampleComBr()
    ensures CleanDomain("example.com.br") == "example.com.br"
  {
    CleanDomainOfHost("example.com.br");
  }

  lemma SpellExampleComBr()
    ensures "example" + "." + "com.br" == "example.com.br"
  {
  }

  lemma BrazilianDomain()
    ensures Extract("example.com.br", KnownSuffix).0 == Result("", "example", "com.br")
    ensures Extract("example.com.br", KnownSuffix).0.FQDN() == "example.com.br"
  {
    CleanExampleComBr();
    SpellExampleComBr();
    LabelExample();
    KnownRules();
    ExtractsDomain("example.com.br", "example.com.br", "example", "com.br");
  }

  // tldextract_test.go, TestExtractFromURL

  lemma SpellUrlShortPath()
    ensures "https" + "://" + "www.example.com" + "/path" == "https://www.example.com/path"
  {
  }

  lemma ExtractFromUrlAgrees()
    ensures ExtractFromURL("https://www.example.com/path", KnownSuffix).0
         == Extract("https://www.example.com/path", KnownSuffix).0
         == Result("www", "example", "com")
    ensures ExtractFromURL("https://www.example.com/path", KnownSuffix).1 == None
  {
    CleanUrlOfHost("https", "www.example.com", "/path");
    SpellUrlShortPath();
    SpellWwwExampleCom();
    LabelExample();
    KnownRules();
    ExtractsSubdomain("https://www.example.com/path", "www.example.com", "www", "example", "com");
  }

  // tldextract_test.go, TestCleanDomain

  lemma SpellComplexUrl()
    ensures "HTTPS" + "://" + "EXAMPLE.COM" + ":8080/PATH" == "HTTPS://EXAMPLE.COM:8080/PATH"
  {
  }

  lemma LowerExampleCom()
    ensures ToLower("EXAMPLE.COM") == "example.com"
  {
  }

  lemma ComplexUrlNormalised()
    ensures CleanDomain("HTTPS://EXAMPLE.COM:8080/PATH") == "example.com"
  {
    CleanUrl("HTTPS", "EXAMPLE.COM", ":8080/PATH");
    SpellComplexUrl();
    assert TrimSuffix("EXAMPLE.COM", ".") == "EXAMPLE.COM";
    LowerExampleCom();
  }

  lemma SpellWithHttp()
    ensures "http" + "://" + "example.com" + "" == "http://example.com"
  {
  }

  lemma CleanWithHttp()
    ensures CleanDomain("http://example.com") == "example.com"
  {
    CleanUrlOfHost("http", "example.com", "");
    SpellWithHttp();
  }

  lemma SpellWithHttps()
    ensures "https" + "://" + "example.com" + "" == "https://example.com"
  {
  }

  lemma CleanWithHttps()
    ensures CleanDomain("https://example.com") == "example.com"
  {
    CleanUrlOfHost("https", "example.com", "");
    SpellWithHttps();
  }

  lemma SpellWithPath()
    ensures "example.com" + "/path" == "example.com/path"
  {
  }

  lemma CleanWithPath()
    ensures CleanDomain("example.com/path") == "example.com"
  {
    CleanHostRestOfHost("example.com", "/path");
    SpellWithPath();
  }

  lemma SpellWithPort()
    ensures "example.com" + ":8080" == "example.com:8080"
  {
  }

  lemma CleanWithPort()
    ensures CleanDomain("example.com:8080") == "example.com"
  {
    CleanHostRestOfHost("example.com", ":8080");
    SpellWithPort();
  }

  lemma CleanWithTrailingDot()
    ensures CleanDomain("example.com.") == "example.com"
  {
    CleanDottedHost("example.com");
    SpellTrailingDot();
  }

  lemma CleanUppercase()
    ensures CleanDomain("EXAMPLE.COM") == "example.com"
  {
    CleanBareHost("EXAMPLE.COM");
    assert TrimSuffix("EXAMPLE.COM", ".") == "EXAMPLE.COM";
    LowerExampleCom();
  }

  // tldextract_test.go, TestResultString

  lemma RegistrableDomains()
    ensures Result("www", "example", "com").String() == "example.com"
    ensures Result("", "", "com").String() == "com"
    ensures Result("www", "example", "co.uk").String() == "example.co.uk"
  {
  }
}
