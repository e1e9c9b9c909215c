# dee-ns record editing, modelled in Dafny

This project models the logic of the `deens` Go package. The package is a thin layer over the DNSimple API client that creates, updates and deletes the "A"/"AAAA" address records of a subdomain. It has four parts, each modelled as pure functions over immutable values:

- **Validation** (`validation.dfy`, util.go):
  - blank-text detection, the same as Go's `strings.TrimSpace` with `unicode.IsSpace`;
  - domain validation: at most 255 bytes and not blank;
  - subdomain validation: at most 253 bytes, and every dot-separated piece matches the label pattern. The pattern is written out by hand as `IsLabel`;
  - the record type an IP address calls for.

  Go's `len` counts UTF-8 bytes, so the length limits are applied to `ByteLen`, the UTF-8 length of the text.
- **Record locator** (`locator.dfy`, info.go). The DNS client is an oracle: for each domain it returns either a record list or an error. The locator is an order-preserving filter over that list. `GetSubdomainRecord` returns the first record with the wanted name and type, or an error.
- **Record editor** (`editor.dfy`, dnseditor.go). Create, update and delete are linear pipelines: validate, look up through the info provider, then make at most one write. Each operation returns a `Run`, which holds the outcome and the calls made, in order. Three oracles live in an `Env`:
  - the info provider's answer to the lookup;
  - the client's reply to the write;
  - Go's `ip.String()`.

  `LocatorEnv` wires the editor to the shipped locator, so that end-to-end properties can be stated over the client's record list.
- **Credentials** (`credentials.dfy`, credentials.go). `NewAPICredentials` rejects a blank e-mail address or token.

`model.dfy` holds the shared datatypes: records, domains, change requests, error kinds, and `Result`/`Outcome`. It also holds `Decimal`, Go's `%d`/`%v` rendering of an integer, which is used for record ids and the update TTL.

Where the code and its tests differ, or the code does something unexpected, the model follows the code:

- **Empty subdomain.** `strings.Split("", ".")` yields one empty piece, and the label pattern rejects it. So the empty subdomain is rejected (`Validation.EmptyPieceRejected`). The test at util_test.go:60 expects it to be accepted.
- **Create's lookup is inverted.** Create fails when the lookup fails, and writes only when a matching record is already listed (`Editor.CreateThroughLocator`). The create tests pin this down.
- **Lookup errors are replaced.** The editor drops the lookup's error and reports its own "no address record" error.
- **Delete's error payload.** Delete's invalid-type error formats the subdomain, not the record type. `InvalidRecordType` carries the subdomain, as written.

## Model

| member | source | states |
|---|---|---|
| `Model.Digits` | dnseditor.go:123 | The decimal text of a natural number is canonical: digits only, no leading zero, and "0" exactly for zero. |
| `Model.Decimal` | dnseditor.go:123 | The `%d` text of an integer is canonical decimal text (optional minus sign, then digits with no leading zero, never "-0"), and starts with a minus sign exactly when the number is negative. |
| `Model.DecimalRoundTrip` | dnseditor.go:126 | Reading back the decimal text of a record id or TTL gives the number. |
| `Model.DigitsCanonical` | dnseditor.go:123 | Every canonical digit text is the rendering of the number it denotes. |
| `Model.DecimalCanonical` | dnseditor.go:123 | Every canonical decimal text is the `%d` rendering of the number it reads as, so rendering and reading are inverse bijections. |
| `Model.DecimalUnique` | dnseditor.go:123 | The only canonical decimal text that reads as n is the `%d` rendering of n. |
| `Model.DecimalInjective` | dnseditor.go:156 | Two ids with the same text are the same id, so the id sent to the client names exactly the record that was found. |
| `Validation.TrimSpace` | util.go:23 | The result is a slice of the text with only white space outside it; it is empty exactly when every character is Unicode white space, and otherwise neither starts nor ends with white space. |
| `Validation.TrimBothSlice` | util.go:23 | Dropping a white-space prefix and then a white-space suffix leaves the slice that starts right after the prefix, with only white space outside it. |
| `Validation.IsEmpty` | util.go:22-24 | A text is blank exactly when every character is Unicode white space; the empty text is blank. |
| `Validation.TrimLeft` | util.go:23 | Trimming drops exactly a leading run of white space: the result is a suffix of the input and does not start with white space. |
| `Validation.TrimRight` | util.go:23 | Trimming drops exactly a trailing run of white space: the result is a prefix of the input and does not end with white space. |
| `Validation.BlankExamples` | util_test.go:12-33 | "", " ", four spaces, the en space and the em space are blank. |
| `Validation.NonBlankExamples` | util_test.go:35-54 | "-", ".", " a " and " _ " are not blank. |
| `Validation.ByteLen` | util.go:29 | Go's `len`, the UTF-8 length, lies between the character count and four times that count. |
| `Validation.AsciiByteLen` | util.go:29 | The byte length equals the character count exactly for ASCII text. |
| `Validation.IsValidDomain` | util.go:28-35 | A domain is valid exactly when it fits in 255 bytes and has a non-space character; a valid domain has 1 to 255 characters. |
| `Validation.Split` | util.go:46 | Splitting at dots yields at least one piece, and no piece contains a dot. |
| `Validation.JoinSplit` | util.go:46 | Joining the pieces with dots restores the text. |
| `Validation.SplitJoin` | util.go:46 | Splitting a dot-join of dot-free pieces yields the pieces back. |
| `Validation.IsLabel` | util.go:18 | The two-branch pattern matches exactly the texts of 1 to 63 letters, digits and hyphens that begin and end with a letter or digit. |
| `Validation.LabelShape` | util.go:18 | A label matching the pattern is 1 to 63 ASCII characters. It has no dot, space, underscore or asterisk, and no hyphen at either end. |
| `Validation.PartsValid` | util.go:46-55 | The per-piece loop accepts exactly when every piece matches the label pattern; the 63-byte check never rejects a matching piece. |
| `Validation.IsValidSubdomain` | util.go:39-58 | A subdomain is valid exactly when it fits in 253 bytes and every dot-separated piece matches the label pattern (both directions). |
| `Validation.ValidSubdomainIsJoinOfLabels` | util.go:39-58 | A dot-join of one or more labels is valid exactly when it has at most 253 characters. |
| `Validation.ValidSubdomainLabels` | util.go:39-58 | A valid subdomain has at most 253 characters and is the dot-join of its pieces, each a label. |
| `Validation.TooLongSubdomainRejected` | util.go:40-43 | Any subdomain longer than 253 characters is rejected, such as the five-label 319-character test input. |
| `Validation.EmptyPieceRejected` | util.go:46-55 | The empty text, a leading or trailing dot, and two dots in a row are all rejected, because some piece is empty. |
| `Validation.AcceptedLabelExamples` | util_test.go:56-81 | "www", "w-w-w", "a", "1" and "123" are valid subdomains. |
| `Validation.AcceptedDottedExample` | util_test.go:63 | "w.w.w" is a valid subdomain. |
| `Validation.AlnumRunLimit` | util_test.go:67 | A run of letters and digits is a valid subdomain exactly when it has at most 63 characters, the length of the test's longest label. |
| `Validation.RejectedExamples` | util_test.go:83-107 | " www", "www ", "w ww", "-a", "-hi-", "_hi_" and "*hi*" are rejected. |
| `Validation.RecordTypeByIP` | util.go:60-68 | The type is always "A" or "AAAA", and it is "A" exactly for an IPv4-representable address. |
| `Locator.Filter` | info.go:110-119 | The filtered list is no longer than the input and holds exactly the input's records that the predicate accepts. |
| `Locator.FilterConcat` | info.go:111-117 | Filtering distributes over concatenation, so the relative order of kept records is preserved. |
| `Locator.FilterCounts` | info.go:111-117 | Each accepted record appears as often as in the input; every other record does not appear. |
| `Locator.FilterAll` | info.go:60-66 | A predicate that accepts everything keeps the list unchanged. |
| `Locator.FilterHead` | info.go:84-89 | The first filtered record is the first accepted record of the input. |
| `Locator.CollectMatching` | info.go:110-117 | The append loop computes exactly the order-preserving filter. |
| `Locator.GetDNSRecords` | info.go:102-120 | A client error is passed on unchanged; otherwise the result holds exactly the client's records that the predicate accepts, in client order with duplicates kept (the order-preserving filter). |
| `Locator.GetDomainRecords` | info.go:60-66 | The result is the client's answer for the domain, unchanged. |
| `Locator.GetSubdomainRecord` | info.go:71-90 | A client error passes through unchanged. Otherwise the lookup succeeds exactly when some record has the name and the type, and returns the first such record in client order. When none exists it reports "no record found". |
| `Locator.GetSubdomainRecords` | info.go:93-99 | A client error passes through; otherwise the result is the client's records named after the subdomain, of any type, in client order. |
| `Locator.SubdomainRecordsCounts` | info.go:93-99 | Each record of the subdomain comes back as often as the client lists it, and no other record comes back. |
| `Locator.Names` | info.go:51-54 | One name per domain, in order: names[i] is the name of domains[i]. |
| `Locator.GetDomainNames` | info.go:43-57 | A client error passes through. Otherwise the result has one name per domain in client order, and is empty for an empty list. |
| `Locator.FirstOfDuplicatesExample` | info_test.go:88-115 | Given the ids 1 to 4 with two "www" records, the lookup returns the record with id 3. |
| `Locator.WrongTypeExample` | info_test.go:147-173 | A "www" record of type A does not answer a lookup for AAAA, which fails with "no record found". |
| `Editor.CreateSubdomain` | dnseditor.go:53-88 | Create keeps the lookup-then-write protocol and rejects an invalid domain, an invalid subdomain or a nil IP before any call. It looks up the IP's type. It fails without a write when the lookup fails. Otherwise it sends exactly one create request, with the subdomain, the IP text and the type, and reports the client's reply. |
| `Editor.Retarget` | dnseditor.go:119-124 | The update request keeps the existing record's name and type, carries its TTL as exactly the `%d` text, canonical decimal that reads back to the TTL, and changes only the value. |
| `Editor.UpdateSubdomain` | dnseditor.go:91-132 | Update keeps the protocol and rejects bad arguments before any call. It looks up the IP's type and fails without a write when the lookup fails. It refuses with "no update required" when the address is already in place. Otherwise it sends one update keyed by the found record's id that changes only the value. |
| `Editor.DeleteSubdomain` | dnseditor.go:135-162 | Delete keeps the protocol and rejects bad names or a type other than exactly "A" or "AAAA" before any call. It looks up the caller's type and fails without a write when the lookup fails. Otherwise it destroys the found record by id and reports the client's reply. |
| `Editor.CreateThroughLocator` | dnseditor.go:69-72 | Over the shipped locator, create writes exactly when the client already lists a record with the subdomain and the IP's type. |
| `Editor.UpdateThroughLocator` | dnseditor.go:107-126 | Over the shipped locator, update targets the first matching record in client order. It refuses when that record already holds the address. Otherwise it writes the subdomain, the IP text, the IP's type and the record's TTL under the record's id. |
| `Editor.DeleteThroughLocator` | dnseditor.go:150-157 | Over the shipped locator, delete writes nothing exactly when no record matches. Otherwise it destroys the first matching record by its id. |
| `Editor.UpdateTwiceWritesOnce` | dnseditor.go:113-116 | Once the client has applied an update, repeating it stops with "no update required" after the lookup and makes no write. |
| `Editor.ExampleNamesValid` | dnseditor_create_test.go:55-56 | "example.com" is a valid domain and "www" a valid subdomain. |
| `Editor.BlankDomainExamples` | dnseditor_create_test.go:33-34 | A blank domain ("" or " ") is rejected by create, update and delete before any call. |
| `Editor.InvalidSubdomainExamples` | dnseditor_update_test.go:31 | The subdomain " - " is rejected by create, update and delete before any call. |
| `Editor.MissingArgumentExamples` | dnseditor_delete_test.go:23-48 | The type "-AAAA-" is rejected by delete before any call; so is a nil IP by create and by update, the cases at dnseditor_create_test.go:35 and dnseditor_update_test.go:34. |
| `Editor.OnlyValueChangesExample` | dnseditor_update_test.go:185-239 | Moving the ::1 record with TTL 600 to ::2 sends name "example.com", type "AAAA", TTL "600" and value "::2". |
| `Editor.DecimalExamples` | dnseditor_update_test.go:212 | The id 0 renders as "0" and the TTL 600 as "600". |
| `Credentials.NewAPICredentials` | credentials.go:14-24 | Construction succeeds exactly when neither part is blank. The e-mail address is checked first. On success both parts are kept exactly as given. |
| `Credentials.AcceptedIffNonBlank` | credentials.go:15-21 | Credentials are accepted exactly when both the e-mail address and the token contain a non-space character. |
| `Credentials.RejectedExamples` | credentials_test.go:52-74 | The pairs with an empty or whitespace-only part are rejected. |
| `Credentials.AcceptedExamples` | credentials_test.go:29-50 | The valid test pairs are accepted verbatim, including the token with non-ASCII letters. |

## Left out

- Editor.CreateSubdomain: the create request's TTL is an opaque function `ttlText` of the TTL. The source formats an `int` with `%s`, which Go renders as `%!s(int=…)` rather than decimal text, and the model states nothing about that text.
- Validation.RecordTypeByIP: IP addresses are abstract. `V4` stands for every address whose `To4()` is non-nil, including IPv4-mapped IPv6 addresses; `V6` covers the rest. The byte layout of `net.IP` and `To4` itself are not modelled, and `ip.String()` is the oracle `Env.show`.
- The DNS client (dnsclient.go) is not code in this model. Its reads are the oracle `Locator.Client`, and its replies to writes are `Env.respond`. The id strings that `CreateRecord` and `UpdateRecord` return are ignored by the source and are not modelled.
- `NewDNSClient`, `NewDNSInfoProvider` and `NewDNSEditor` only wrap values and are not modelled. The editor takes its info provider as `Env.lookup`.
- The credential store interfaces (credentials.go:35-60) are declarations only.
- Error message texts are not modelled. Each error is a kind carrying the values the source formats into its message.
- Go's nil slice and empty slice are both the empty sequence. An empty domain list therefore yields an empty name list.
- Go strings that are not valid UTF-8 are not modelled. Dafny strings are sequences of Unicode scalar values.
- make.go (build script), the test doubles and the example programs are not part of this model. The tests are used only as the source of the example lemmas.
