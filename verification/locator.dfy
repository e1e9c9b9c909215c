/** The record locator (info.go): resolves subdomain records by filtering the
    record list the DNS client returns for a domain. The client is an oracle:
    for each domain it answers with a record list or an error. */
module Locator {
  import opened Model

  /** The read side of the DNS client (dnsclient.go:23-38): `GetRecords` per
      domain and `GetDomains`. */
  datatype Client = Client(getRecords: string -> Result<seq<Record>>, getDomains: Result<seq<Domain>>)

  // ---------------------------------------------------------------------------
  // Filtering
  // ---------------------------------------------------------------------------

  /** The records `keep` accepts, in their original order. */
  function Filter(records: seq<Record>, keep: Record -> bool): (kept: seq<Record>)
    ensures |kept| <= |records|
    ensures forall x :: x in kept <==> x in records && keep(x)
    decreases |records|
  {
    if |records| == 0 then []
    else (if keep(records[0]) then [records[0]] else []) + Filter(records[1..], keep)
  }

  /** Filtering distributes over concatenation: relative order is kept. */
  lemma {:induction false} FilterConcat(a: seq<Record>, b: seq<Record>, keep: Record -> bool)
    ensures Filter(a + b, keep) == Filter(a, keep) + Filter(b, keep)
    decreases |a|
  {
    if |a| > 0 {
      var head := if keep(a[0]) then [a[0]] else [];
      assert (a + b)[0] == a[0];
      assert (a + b)[1..] == a[1..] + b;
      assert Filter(a + b, keep) == head + Filter(a[1..] + b, keep);
      FilterConcat(a[1..], b, keep);
      assert head + (Filter(a[1..], keep) + Filter(b, keep)) == (head + Filter(a[1..], keep)) + Filter(b, keep);
    } else {
      assert a + b == b;
    }
  }

  /** Each accepted record appears as often as in the input; the others not at all. */
  lemma {:induction false} FilterCounts(records: seq<Record>, keep: Record -> bool, x: Record)
    ensures multiset(Filter(records, keep))[x] == if keep(x) then multiset(records)[x] else 0
    decreases |records|
  {
    if |records| > 0 {
      FilterCounts(records[1..], keep, x);
      assert records == [records[0]] + records[1..];
    }
  }

  /** Accepting everything keeps the list as it is. */
  lemma {:induction false} FilterAll(records: seq<Record>, keep: Record -> bool)
    requires forall x :: keep(x)
    ensures Filter(records, keep) == records
    decreases |records|
  {
    if |records| > 0 {
      FilterAll(records[1..], keep);
    }
  }

  /** `i` is the first position whose record `keep` accepts. */
  predicate FirstKept(records: seq<Record>, keep: Record -> bool, i: nat)
  {
    i < |records| && keep(records[i]) && forall j :: 0 <= j < i ==> !keep(records[j])
  }

  /** The head of the filtered list is the first accepted record. */
  lemma {:induction false} FilterHead(records: seq<Record>, keep: Record -> bool)
    requires |Filter(records, keep)| > 0
    ensures exists i: nat :: FirstKept(records, keep, i) && Filter(records, keep)[0] == records[i]
    decreases |records|
  {
    if keep(records[0]) {
      assert FirstKept(records, keep, 0);
    } else {
      FilterHead(records[1..], keep);
      var i': nat :| FirstKept(records[1..], keep, i') && Filter(records[1..], keep)[0] == records[1..][i'];
      assert forall j :: 1 <= j <= i' + 1 ==> records[j] == records[1..][j - 1];
      assert FirstKept(records, keep, i' + 1);
    }
  }

  /** The loop of info.go:110-119: walk the client's list and append every
      record the predicate accepts. */
  method CollectMatching(records: seq<Record>, keep: Record -> bool) returns (filtered: seq<Record>)
    ensures filtered == Filter(records, keep)
  {
    filtered := [];
    var i := 0;
    while i < |records|
      invariant 0 <= i <= |records|
      invariant filtered == Filter(records[..i], keep)
    {
      var record := records[i];
      assert records[..i + 1] == records[..i] + [record];
      FilterConcat(records[..i], [record], keep);
      if keep(record) {
        filtered := filtered + [record];
      }
      i := i + 1;
    }
    assert records[..i] == records;
  }

  // ---------------------------------------------------------------------------
  // The info provider
  // ---------------------------------------------------------------------------

  /** `getDNSRecords`: the client's records for `domain` that `keep` accepts,
      in client order, duplicates kept (the order-preserving `Filter`, which
      `FilterConcat` and `FilterCounts` characterise). */
  function GetDNSRecords(client: Client, domain: string, keep: Record -> bool): (r: Result<seq<Record>>)
    ensures client.getRecords(domain).Failure? ==> r == Failure(client.getRecords(domain).error)
    ensures client.getRecords(domain).Success? ==>
              r.Success? && forall x :: x in r.value <==> x in client.getRecords(domain).value && keep(x)
    ensures client.getRecords(domain).Success? ==> r == Success(Filter(client.getRecords(domain).value, keep))
  {
    match client.getRecords(domain)
    case Failure(e) => Failure(e)
    case Success(records) => Success(Filter(records, keep))
  }

  /** `GetDomainRecords`: every record of the domain. */
  function GetDomainRecords(client: Client, domain: string): (r: Result<seq<Record>>)
    ensures r == client.getRecords(domain)
  {
    var r := GetDNSRecords(client, domain, (record: Record) => true);
    if client.getRecords(domain).Success? then
      FilterAll(client.getRecords(domain).value, (record: Record) => true);
      r
    else r
  }

  /** A record of the subdomain with the given type. */
  predicate IsSubdomainRecord(record: Record, subdomain: string, recordType: string)
  {
    record.name == subdomain && record.recordType == recordType
  }

  /** `GetSubdomainRecord`: the first record, in client order, with the
      subdomain's name and the record type. */
  function GetSubdomainRecord(client: Client, domain: string, subdomain: string, recordType: string): (r: Result<Record>)
    ensures client.getRecords(domain).Failure? ==> r == Failure(client.getRecords(domain).error)
    ensures client.getRecords(domain).Success? ==>
              var records := client.getRecords(domain).value;
              && (r.Success? <==> exists i :: 0 <= i < |records| && IsSubdomainRecord(records[i], subdomain, recordType))
              && (r.Failure? ==> r.error == NoRecordFound(subdomain, domain))
              && (r.Success? ==> exists i: nat :: FirstMatch(records, subdomain, recordType, i) && r.value == records[i])
  {
    var keep := (record: Record) => IsSubdomainRecord(record, subdomain, recordType);
    match GetDNSRecords(client, domain, keep)
    case Failure(e) => Failure(e)
    case Success(matching) =>
      if |matching| == 0 then
        var records := client.getRecords(domain).value;
        assert forall i :: 0 <= i < |records| ==> records[i] in records;
        Failure(NoRecordFound(subdomain, domain))
      else
        FilterHead(client.getRecords(domain).value, keep);
        Success(matching[0])
  }

  /** `i` is the first position holding a record of the subdomain and type. */
  predicate FirstMatch(records: seq<Record>, subdomain: string, recordType: string, i: nat)
  {
    && i < |records| && IsSubdomainRecord(records[i], subdomain, recordType)
    && forall j :: 0 <= j < i ==> !IsSubdomainRecord(records[j], subdomain, recordType)
  }

  /** `GetSubdomainRecords`: every record of the subdomain, of any type, in
      client order. */
  function GetSubdomainRecords(client: Client, domain: string, subdomain: string): (r: Result<seq<Record>>)
    ensures client.getRecords(domain).Failure? ==> r == Failure(client.getRecords(domain).error)
    ensures client.getRecords(domain).Success? ==>
              r.Success? && forall x :: x in r.value <==> x in client.getRecords(domain).value && x.name == subdomain
    ensures client.getRecords(domain).Success? ==>
              r == Success(Filter(client.getRecords(domain).value, (record: Record) => record.name == subdomain))
  {
    GetDNSRecords(client, domain, (record: Record) => record.name == subdomain)
  }

  /** Each record of the subdomain comes back as often as the client lists
      it, and no other record comes back. */
  lemma SubdomainRecordsCounts(client: Client, domain: string, subdomain: string, x: Record)
    requires client.getRecords(domain).Success?
    ensures multiset(GetSubdomainRecords(client, domain, subdomain).value)[x] ==
              if x.name == subdomain then multiset(client.getRecords(domain).value)[x] else 0
  {
    FilterCounts(client.getRecords(domain).value, (record: Record) => record.name == subdomain, x);
  }

  /** The names of the domains, one per domain, in order. */
  function Names(domains: seq<Domain>): (names: seq<string>)
    ensures |names| == |domains|
    ensures forall i :: 0 <= i < |domains| ==> names[i] == domains[i].name
  {
    if |domains| == 0 then [] else [domains[0].name] + Names(domains[1..])
  }

  /** `GetDomainNames`: the names of the client's domains, or its error. */
  function GetDomainNames(client: Client): (r: Result<seq<string>>)
    ensures client.getDomains.Failure? ==> r == Failure(client.getDomains.error)
    ensures client.getDomains.Success? ==>
              && r.Success? && |r.value| == |client.getDomains.value|
              && forall i :: 0 <= i < |r.value| ==> r.value[i] == client.getDomains.value[i].name
  {
    match client.getDomains
    case Failure(e) => Failure(e)
    case Success(domains) => Success(Names(domains))
  }

  // ---------------------------------------------------------------------------
  // The cases info_test.go pins down
  // ---------------------------------------------------------------------------

  /** Only one position can be the first match. */
  lemma FirstMatchUnique(records: seq<Record>, subdomain: string, recordType: string, i: nat, j: nat)
    requires FirstMatch(records, subdomain, recordType, i) && FirstMatch(records, subdomain, recordType, j)
    ensures i == j
  {
  }

  /** Four AAAA records, two of them named www (ids 1 to 4): the first www
      record, id 3, is returned. */
  lemma FirstOfDuplicatesExample(client: Client)
    requires client.getRecords("example.com") == Success([
               Record(1, "aaa", "", "AAAA", 0), Record(2, "bbb", "", "AAAA", 0),
               Record(3, "www", "", "AAAA", 0), Record(4, "www", "", "AAAA", 0)])
    ensures GetSubdomainRecord(client, "example.com", "www", "AAAA") == Success(Record(3, "www", "", "AAAA", 0))
  {
    var records := client.getRecords("example.com").value;
    assert FirstMatch(records, "www", "AAAA", 2);
    var r := GetSubdomainRecord(client, "example.com", "www", "AAAA");
    var i: nat :| FirstMatch(records, "www", "AAAA", i) && r.value == records[i];
    FirstMatchUnique(records, "www", "AAAA", i, 2);
  }

  /** A www record of type A does not answer a lookup for AAAA. */
  lemma WrongTypeExample(client: Client)
    requires client.getRecords("example.com") == Success([
               Record(1, "aaa", "", "AAAA", 0), Record(2, "bbb", "", "AAAA", 0), Record(3, "www", "", "A", 0)])
    ensures GetSubdomainRecord(client, "example.com", "www", "AAAA") == Failure(NoRecordFound("www", "example.com"))
  {
    var records := client.getRecords("example.com").value;
    forall i | 0 <= i < |records| ensures !IsSubdomainRecord(records[i], "www", "AAAA") {
    }
  }
}
