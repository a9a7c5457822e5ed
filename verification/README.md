# gotldextract in Dafny

A Dafny model of the domain-splitting core of gotldextract, a Go library. The library splits a host name or URL into subdomain, registrable domain label and public suffix. The model covers:

- `cleanDomain`, the host normaliser. It drops everything up to and including the first `://`, cuts at the first `/` and then at the first `:`, drops one trailing `.`, and lower-cases the rest.
- `Extract` and `ExtractFromURL`. The label partitioner runs on the looked-up public suffix.
- The two views of a `Result`: `String`, the registrable domain, and `FQDN`, the non-empty fields joined by `.`.
- The CSV output of the command-line tool: `escapeCSV` and the five-field line.

The project has four modules:

- `GoStrings` (go_strings.dfy): the Go `strings` functions the code relies on (`Index`, `Contains`, `SplitN`, `Split`, `Join`, `TrimSuffix`, `ToLower`, `ReplaceAll`). Each has a contract stating what the extractor relies on. `ReplaceAll`'s length fact is a separate lemma, `ReplaceAllLength`.
- `TldExtract` (tldextract.dfy): the library.
- `CsvOutput` (csv_output.dfy): the CSV encoder. It comes with a reader, `ParseRow`, and the encoder is proved lossless against it.
- `TldExtractScenarios` (scenarios.dfy): every case of tldextract_test.go as a lemma. They use a small stand-in suffix list that knows `com`, `co.uk`, `co.jp`, `com.br` and the private suffix `github.io`.

The public-suffix lookup, `publicsuffix.PublicSuffix`, is a parameter `lookup: string -> (string, bool)`. It returns the suffix and the ICANN flag. The lemmas assume only what that list guarantees, called `Aligned`: the suffix is the whole host, or `"." + suffix` ends the host.

On idempotence, the model follows the code. A reader might expect normalising twice to give the same result as normalising once, for every input. The code removes only one trailing `.` per call, so that does not hold. The model proves, for every input, that a second pass leaves the result unchanged exactly when the first result does not end in `.` (`CleanDomainIdempotent`). Such a result arises, for instance, when the host part ends in two dots. For example, `a..` gives `a.`, and a second pass gives `a`; `CleanDomainNotIdempotent` states this for every lower-case host with no `/` or `:` followed by two dots.

## Model

| member | source | states |
|---|---|---|
| GoStrings.Contains | tldextract.go:83 | strings.Contains holds exactly when the pattern occurs at some position |
| GoStrings.Index | tldextract.go:91 | strings.Index returns the first occurrence of the pattern, or none when it does not occur anywhere |
| GoStrings.SplitN2 | tldextract.go:83-88 | SplitN(s, "://", 2) has two parts exactly when s contains the separator. So the `len(parts) == 2` guard always holds, and s is the first part, the separator and the second part, split at the first occurrence |
| GoStrings.Split | tldextract.go:42 | strings.Split returns at least one part, no part holds the separator, and joining the parts gives back the input |
| GoStrings.Join | tldextract.go:58 | strings.Join of no parts is empty and of one part is that part; from two parts on, the first part is followed by the separator and the last part is preceded by it |
| GoStrings.JoinEnds | tldextract.go:126 | a join starts with its first part and ends with its last |
| GoStrings.TrimSuffix | tldextract.go:101 | TrimSuffix removes the suffix exactly when it is present and otherwise returns the input |
| GoStrings.ToLower | tldextract.go:103 | strings.ToLower keeps the length, leaves no upper-case letter and changes nothing but letter case, which fixes the result |
| GoStrings.ReplaceAll | cmd/tldextract/main.go:112 | strings.ReplaceAll leaves a string without the character unchanged, leaves no occurrence when the replacement has none, and adds only characters of the input or the replacement |
| GoStrings.ReplaceAllLength | cmd/tldextract/main.go:112 | replacing a character by a two-character string adds one character per occurrence |
| GoStrings.IndexCaseEq | tldextract.go:83-98 | the position of a letter-free pattern does not depend on letter case |
| TldExtract.StripScheme | tldextract.go:83-88 | the result is a suffix of the input; with "://" present, it is what follows the first occurrence, and otherwise it is the input |
| TldExtract.CutAt | tldextract.go:91-98 | the result is a prefix without the character, ending just before its first occurrence |
| TldExtract.CleanDomain | tldextract.go:81-104 | the normalised host holds no `/`, no `:` and no upper-case letter, and is no longer than the input |
| TldExtract.CutPathThenPort | tldextract.go:90-98 | the path cut and then the port cut stop at the first `/` or `:`, whichever comes first |
| TldExtract.CleanDomainSpec | tldextract.go:81-104 | the normaliser takes the text after the first "://" up to the first `/` or `:`, drops one trailing `.` and lower-cases it |
| TldExtract.CleanBareHost | tldextract.go:100-103 | a host with no `/` or `:` only loses one trailing `.` and its case |
| TldExtract.CleanHostRest | tldextract.go:81-104 | a host with no scheme, followed by nothing, a path, a port or both in either order, with no "://" after the host, normalises to the lower-cased host, less one trailing `.` |
| TldExtract.CleanUrl | tldextract.go:81-104 | `scheme://host` followed by nothing, a path or a port normalises to the lower-cased host, less one trailing `.` |
| TldExtract.CleanDomainOfHost | tldextract.go:81-104 | a lower-case host with no `/`, `:` or trailing `.` is its own normal form |
| TldExtract.CleanDomainIdempotent | tldextract.go:101 | for every input, normalising twice equals normalising once exactly when the first result does not end in `.` |
| TldExtract.SecondPassDropsDot | tldextract.go:101 | a normalised host that ends in `.` loses that `.`, and nothing else, on a second pass |
| TldExtract.CleanDottedHost | tldextract.go:101 | exactly one trailing `.` is dropped |
| TldExtract.CleanDomainNotIdempotent | tldextract.go:101 | for a lower-case host with no `/` or `:` followed by two dots, a second pass changes the result, so the normaliser is not idempotent in general |
| TldExtract.StripSchemeCaseEq | tldextract.go:83-88 | inputs equal up to letter case keep case-equal remainders after the scheme |
| TldExtract.CutAtCaseEq | tldextract.go:91-98 | cutting case-equal strings at a non-letter gives case-equal results |
| TldExtract.CleanDomainCaseInsensitive | tldextract.go:103 | inputs equal up to ASCII letter case normalise to the same host |
| TldExtract.Partition | tldextract.go:29-36 | the TLD is the suffix, and a host equal to its suffix has empty Subdomain and Domain |
| TldExtract.PartitionLabels | tldextract.go:38-59 | the Domain is the last `.`-separated label of the host without `"." + suffix`, holds no `.` and ends that rest. With a `.` in the rest, the rest is Subdomain + "." + Domain; without one, the Subdomain is empty. When the rest does not start with `.`, the Subdomain is empty exactly when one label precedes the suffix |
| TldExtract.LastDotUnique | tldextract.go:52-59 | splitting at the last `.` is unique |
| TldExtract.PartitionOfDomain | tldextract.go:38-65 | `name.suffix` with a dot-free name gives Result("", name, suffix) |
| TldExtract.PartitionOfSubdomain | tldextract.go:38-65 | `sub.name.suffix` with a dot-free name gives Result(sub, name, suffix) |
| TldExtract.Extract | tldextract.go:18-66 | the result is the partition of the normalised host by the lookup's suffix, so its TLD is that suffix whichever ICANN flag the lookup reports; the error is always nil |
| TldExtract.ExtractFromURL | tldextract.go:68-71 | ExtractFromURL returns what Extract returns |
| TldExtract.ExtractCaseInsensitive | tldextract.go:18-20 | inputs equal up to letter case extract identically |
| TldExtract.ExtractIgnoresUpper | tldextract.go:18-20 | upper-casing the input does not change the extraction |
| TldExtract.Result.String | tldextract.go:106-112 | without a Domain the registrable domain is exactly the TLD; with one it is Domain, `.` and TLD, in that order and nothing else |
| TldExtract.Result.FQDN | tldextract.go:114-127 | the FQDN is empty exactly when all fields are, ends in the TLD and starts with the Subdomain |
| TldExtract.JoinOpt | tldextract.go:116-126 | appending a field that may be empty to a join adds a `.` and the field when both are non-empty, and otherwise yields the non-empty one |
| TldExtract.FqdnClosedForm | tldextract.go:114-127 | for every combination of empty and non-empty fields, the FQDN is the non-empty fields in order, with one `.` between each two |
| TldExtract.FqdnJoin | tldextract.go:116-126 | joining at most three non-empty parts is empty only for no parts, starts with the first and ends with the last |
| TldExtract.FqdnWithDomain | tldextract.go:114-127 | with Domain and TLD set, the FQDN is the optional `Subdomain.` followed by Domain, `.` and TLD |
| TldExtract.AlignedRest | tldextract.go:39 | an aligned host is what TrimSuffix leaves, `.`, and the suffix |
| TldExtract.RestOfNonEmptyLabels | tldextract.go:39 | for a host of non-empty labels, what precedes the suffix is non-empty and neither starts nor ends with `.` |
| TldExtract.FqdnReconstructsHost | tldextract.go:18-66 | for a host of non-empty labels and an aligned suffix, the FQDN of the partition rebuilds the host |
| TldExtract.RegistrablePrefix | tldextract.go:107-112 | an aligned host other than its suffix is a prefix followed by its registrable domain |
| TldExtract.RegistrableIsSuffix | tldextract.go:107-112 | the registrable domain ends the host and itself ends in the public suffix |
| CsvOutput.EscapeCSV | cmd/tldextract/main.go:110-115 | a field is left as it is exactly when it holds no `,`, `"` or newline; a lone carriage return is not quoted. Otherwise it is wrapped in quotes and grows by two plus its number of quotes |
| CsvOutput.CollapseDoubled | cmd/tldextract/main.go:112 | collapsing doubled quotes undoes ReplaceAll(s, `"`, `""`) |
| CsvOutput.EscapeRoundTrip | cmd/tldextract/main.go:110-115 | removing the outer quotes and collapsing doubled quotes recovers every field |
| CsvOutput.QuotedLenDoubled | cmd/tldextract/main.go:112 | a doubled-quote content is read to its end and no further |
| CsvOutput.FieldLenEscaped | cmd/tldextract/main.go:110-121 | an escaped field followed by `,` or a newline is read as exactly that field |
| CsvOutput.ParseRowLast | cmd/tldextract/main.go:116-121 | a line with one escaped field reads back as that field |
| CsvOutput.ParseRowCons | cmd/tldextract/main.go:116-121 | an escaped field and a comma in front of a line add that field in front of what is read |
| CsvOutput.ParseEncodeRow | cmd/tldextract/main.go:116-121 | reading a line of escaped fields gives back the fields |
| CsvOutput.FiveFieldRow | cmd/tldextract/main.go:158-163 | the five-field line is an encoded row of those five fields |
| CsvOutput.CsvRow | cmd/tldextract/main.go:116-121 | a reader recovers input, subdomain, domain, tld and fqdn from each written line, in that order |
| CsvOutput.CsvHeaderColumns | cmd/tldextract/main.go:49 | the header reads as the five column names in the order the rows write them |
| TldExtractScenarios.ExtractsDomain | tldextract_test.go:16-23 | an input normalising to `name.rule` extracts to ("", name, rule) with that FQDN |
| TldExtractScenarios.ExtractsSubdomain | tldextract_test.go:24-31 | an input normalising to `sub.name.rule` extracts to (sub, name, rule) with that FQDN |
| TldExtractScenarios.SimpleDomain | tldextract_test.go:16-23 | example.com extracts to ("", "example", "com") with FQDN example.com |
| TldExtractScenarios.Subdomain | tldextract_test.go:24-31 | www.example.com extracts to ("www", "example", "com") with FQDN www.example.com |
| TldExtractScenarios.ComplexSubdomain | tldextract_test.go:120-127 | api.v2.staging.example.com extracts to ("api.v2.staging", "example", "com") with FQDN api.v2.staging.example.com |
| TldExtractScenarios.MultipleSubdomains | tldextract_test.go:32-39 | a.b.c.example.com extracts to ("a.b.c", "example", "com") with FQDN a.b.c.example.com |
| TldExtractScenarios.UkDomain | tldextract_test.go:40-47 | example.co.uk extracts to ("", "example", "co.uk") with FQDN example.co.uk |
| TldExtractScenarios.UkSubdomain | tldextract_test.go:48-55 | www.example.co.uk extracts to ("www", "example", "co.uk") with FQDN www.example.co.uk |
| TldExtractScenarios.UrlWithProtocol | tldextract_test.go:56-63 | https://www.example.com extracts to ("www", "example", "com") with FQDN www.example.com |
| TldExtractScenarios.UrlWithPath | tldextract_test.go:64-71 | https://www.example.com/path/to/page extracts to ("www", "example", "com") with FQDN www.example.com |
| TldExtractScenarios.JapaneseDomain | tldextract_test.go:80-87 | example.co.jp extracts to ("", "example", "co.jp") with FQDN example.co.jp |
| TldExtractScenarios.BrazilianDomain | tldextract_test.go:88-95 | example.com.br extracts to ("", "example", "com.br") with FQDN example.com.br |
| TldExtractScenarios.GithubPagesDomain | tldextract_test.go:128-135 | username.github.io extracts to ("", "username", "github.io") with FQDN username.github.io |
| TldExtractScenarios.JustTld | tldextract_test.go:96-103 | "com" extracts to ("", "", "com") with FQDN "com" |
| TldExtractScenarios.TrailingDot | tldextract_test.go:112-119 | example.com. extracts to ("", "example", "com") with FQDN example.com |
| TldExtractScenarios.MixedCase | tldextract_test.go:104-111 | WWW.EXAMPLE.COM extracts to ("www", "example", "com") with FQDN www.example.com |
| TldExtractScenarios.UrlWithPort | tldextract_test.go:72-79 | https://www.example.com:8080 extracts to ("www", "example", "com") with FQDN www.example.com |
| TldExtractScenarios.ExtractFromUrlAgrees | tldextract_test.go:161-176 | for https://www.example.com/path, ExtractFromURL and Extract give the same ("www", "example", "com") and no error |
| TldExtractScenarios.CleanExampleCom | tldextract_test.go:228 | example.com normalises to itself |
| TldExtractScenarios.CleanWithHttp | tldextract_test.go:229 | http://example.com normalises to example.com |
| TldExtractScenarios.CleanWithHttps | tldextract_test.go:230 | https://example.com normalises to example.com |
| TldExtractScenarios.CleanWithPath | tldextract_test.go:231 | example.com/path normalises to example.com |
| TldExtractScenarios.CleanWithPort | tldextract_test.go:232 | example.com:8080 normalises to example.com |
| TldExtractScenarios.CleanWithTrailingDot | tldextract_test.go:233 | example.com. normalises to example.com |
| TldExtractScenarios.CleanUppercase | tldextract_test.go:234 | EXAMPLE.COM normalises to example.com |
| TldExtractScenarios.ComplexUrlNormalised | tldextract_test.go:235 | HTTPS://EXAMPLE.COM:8080/PATH normalises to example.com |
| TldExtractScenarios.RegistrableDomains | tldextract_test.go:184-210 | String gives example.com, com and example.co.uk for the three test results |

## Left out

- The public-suffix list (golang.org/x/net/publicsuffix) is not part of this model. It is the `lookup` parameter. The lemmas about a partition assume only that the suffix is aligned with the host, the guarantee the list gives. The scenario lemmas use a five-rule stand-in list.
- `Update` (tldextract.go:76-78) always returns a fixed error and holds no logic; it is not modelled.
- The command-line plumbing of cmd/tldextract/main.go is not modelled: flag parsing, reading arguments, files and standard input, buffered writing, JSON output, the human-readable and pipe-mode output, and the help text. Only the CSV escaper, the CSV line and the header are.
- `ToLower` maps ASCII letters only. Go's `strings.ToLower` also folds non-ASCII letters, which the model does not.
- Strings are sequences of characters, not Go's byte strings. Hosts and CSV fields are treated character by character.
- GoStrings.SplitN2 requires a non-empty separator. The only call site uses "://", so the empty-separator behaviour of `strings.SplitN` is not modelled.
- GoStrings.ReplaceAllLength is stated only for a two-character replacement, the one escapeCSV uses. It is not given for replacements of any length.
- The `len(parts) == 0` branch of `Extract` (tldextract.go:44-50) is kept in `Partition`, but it is unreachable: `Split` returns at least one part.
