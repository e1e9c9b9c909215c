/** The record editor (dnseditor.go): create, update and delete subdomain
    address records. Each operation is one linear pipeline: validate the
    arguments, look the record up through the info provider, then make at
    most one write call to the DNS client. The info provider, the client's
    replies to writes and the rendering of an IP address as text are
    oracles; each operation returns its outcome together with the calls it
    made, in order. */
module Editor {
  import opened Model
  import opened Validation
  import Locator

  /** A `GetSubdomainRecord` request to the info provider. */
  datatype Query = Query(domain: string, subdomain: string, recordType: string)

  /** A write request to the DNS client; record ids travel as text. */
  datatype WriteCall =
    | CreateRecord(domain: string, change: ChangeRecord)
    | UpdateRecord(domain: string, id: string, change: ChangeRecord)
    | DestroyRecord(domain: string, id: string)

  /** A call the editor makes to a collaborator. */
  datatype Call = Lookup(query: Query) | Write(write: WriteCall)

  /** What an operation returned, and the calls it made on the way. */
  datatype Run = Run(outcome: Outcome, calls: seq<Call>)

  /** The editor's collaborators: the info provider's answer to each lookup,
      the client's error (if any) for each write, and Go's `ip.String()`. */
  datatype Env = Env(lookup: Query -> Result<Record>, respond: WriteCall -> Option<Error>, show: IP -> string)

  /** The outcome of passing a write's reply on unchanged. */
  function Reply(err: Option<Error>): Outcome
  {
    match err
    case None => Pass
    case Some(e) => Fail(e)
  }

  /** The protocol every operation keeps: at most one lookup, then at most
      one write, and the write only after a lookup that succeeded; the
      operation succeeds only through a write, and then reports exactly
      the client's reply to it. */
  predicate LookupThenWrite(env: Env, r: Run)
  {
    && |r.calls| <= 2
    && (|r.calls| >= 1 ==> r.calls[0].Lookup?)
    && (|r.calls| == 2 ==>
          && r.calls[1].Write?
          && env.lookup(r.calls[0].query).Success?
          && r.outcome == Reply(env.respond(r.calls[1].write)))
    && (|r.calls| < 2 ==> r.outcome.Fail?)
  }

  /** The write an operation made, if any. */
  function Written(r: Run): Option<WriteCall>
  {
    if |r.calls| == 2 && r.calls[1].Write? then Some(r.calls[1].write) else None
  }

  /** Rejected before any collaborator was consulted. */
  function Rejected(e: Error): Run
  {
    Run(Fail(e), [])
  }

  /** The domain and subdomain checks the three operations share: the
      domain is checked first, and the error names what failed. */
  function CheckNames(domain: string, subdomain: string): (e: Option<Error>)
    ensures e.None? <==> IsValidDomain(domain) && IsValidSubdomain(subdomain)
    ensures !IsValidDomain(domain) ==> e == Some(InvalidName(domain))
    ensures IsValidDomain(domain) && !IsValidSubdomain(subdomain) ==> e == Some(InvalidName(subdomain))
  {
    if !IsValidDomain(domain) then Some(InvalidName(domain))
    else if !IsValidSubdomain(subdomain) then Some(InvalidName(subdomain))
    else None
  }

  // ---------------------------------------------------------------------------
  // Create
  // ---------------------------------------------------------------------------

  /** `CreateSubdomain`, as written: it proceeds only when the lookup FINDS a
      record of the subdomain and the IP's type, and then asks the client to
      create one. `ttlText` is Go's `fmt.Sprintf("%s", timeToLive)`. */
  function CreateSubdomain(env: Env, domain: string, subdomain: string, timeToLive: int, ip: Option<IP>,
                           ttlText: int -> string): (r: Run)
    ensures LookupThenWrite(env, r)
    ensures !IsValidDomain(domain) ==> r == Rejected(InvalidName(domain))
    ensures IsValidDomain(domain) && !IsValidSubdomain(subdomain) ==> r == Rejected(InvalidName(subdomain))
    ensures CheckNames(domain, subdomain).None? && ip.None? ==> r == Rejected(MissingIP)
    ensures |r.calls| > 0 <==> CheckNames(domain, subdomain).None? && ip.Some?
    ensures |r.calls| > 0 ==> r.calls[0] == Lookup(Query(domain, subdomain, RecordTypeByIP(ip.value)))
    ensures |r.calls| == 1 ==> r.outcome == Fail(NoAddressRecord(RecordTypeByIP(ip.value), subdomain))
    ensures |r.calls| > 0 ==> (|r.calls| == 2 <==> env.lookup(r.calls[0].query).Success?)
    ensures Written(r).Some? ==>
              Written(r).value == CreateRecord(domain,
                ChangeRecord(subdomain, env.show(ip.value), RecordTypeByIP(ip.value), ttlText(timeToLive)))
  {
    match CheckNames(domain, subdomain)
    case Some(e) => Rejected(e)
    case None =>
      if ip.None? then Rejected(MissingIP)
      else
        var recordType := RecordTypeByIP(ip.value);
        var query := Query(domain, subdomain, recordType);
        if env.lookup(query).Failure? then
          Run(Fail(NoAddressRecord(recordType, subdomain)), [Lookup(query)])
        else
          var write := CreateRecord(domain, ChangeRecord(subdomain, env.show(ip.value), recordType, ttlText(timeToLive)));
          Run(Reply(env.respond(write)), [Lookup(query), Write(write)])
  }

  // ---------------------------------------------------------------------------
  // Update
  // ---------------------------------------------------------------------------

  /** The change request an update sends: the existing record with only its
      value replaced, the TTL carried as its `%d` text. */
  function Retarget(existing: Record, value: string): (change: ChangeRecord)
    ensures change.name == existing.name && change.recordType == existing.recordType
    ensures change.value == value
    ensures IsDecimalText(change.ttl) && ParseDecimal(change.ttl) == existing.ttl
    ensures change.ttl == Decimal(existing.ttl)
  {
    DecimalRoundTrip(existing.ttl);
    ChangeRecord(existing.name, value, existing.recordType, Decimal(existing.ttl))
  }

  /** `UpdateSubdomain`: look up the record of the IP's type, refuse when it
      already holds the address, otherwise rewrite only its value. */
  function UpdateSubdomain(env: Env, domain: string, subdomain: string, ip: Option<IP>): (r: Run)
    ensures LookupThenWrite(env, r)
    ensures !IsValidDomain(domain) ==> r == Rejected(InvalidName(domain))
    ensures IsValidDomain(domain) && !IsValidSubdomain(subdomain) ==> r == Rejected(InvalidName(subdomain))
    ensures CheckNames(domain, subdomain).None? && ip.None? ==> r == Rejected(MissingIP)
    ensures |r.calls| > 0 <==> CheckNames(domain, subdomain).None? && ip.Some?
    ensures |r.calls| > 0 ==> r.calls[0] == Lookup(Query(domain, subdomain, RecordTypeByIP(ip.value)))
    ensures |r.calls| > 0 ==>
              var found := env.lookup(r.calls[0].query);
              && (found.Failure? ==> r == Run(Fail(NoAddressRecord(RecordTypeByIP(ip.value), subdomain)), r.calls[..1]))
              && (found.Success? && found.value.content == env.show(ip.value) ==>
                    r == Run(Fail(NoUpdateRequired(found.value.content)), r.calls[..1]))
              && (|r.calls| == 2 <==> found.Success? && found.value.content != env.show(ip.value))
    ensures Written(r).Some? ==>
              var existing := env.lookup(r.calls[0].query).value;
              Written(r).value == UpdateRecord(domain, Decimal(existing.id), Retarget(existing, env.show(ip.value)))
  {
    match CheckNames(domain, subdomain)
    case Some(e) => Rejected(e)
    case None =>
      if ip.None? then Rejected(MissingIP)
      else
        var recordType := RecordTypeByIP(ip.value);
        var query := Query(domain, subdomain, recordType);
        match env.lookup(query)
        case Failure(_) => Run(Fail(NoAddressRecord(recordType, subdomain)), [Lookup(query)])
        case Success(existing) =>
          if existing.content == env.show(ip.value) then
            Run(Fail(NoUpdateRequired(existing.content)), [Lookup(query)])
          else
            var write := UpdateRecord(domain, Decimal(existing.id), Retarget(existing, env.show(ip.value)));
            Run(Reply(env.respond(write)), [Lookup(query), Write(write)])
  }

  // ---------------------------------------------------------------------------
  // Delete
  // ---------------------------------------------------------------------------

  /** The record types delete accepts, compared exactly. */
  predicate IsAddressType(recordType: string)
  {
    recordType == TypeAAAA || recordType == TypeA
  }

  /** `DeleteSubdomain`: look up the record of the caller's type and destroy it. */
  function DeleteSubdomain(env: Env, domain: string, subdomain: string, recordType: string): (r: Run)
    ensures LookupThenWrite(env, r)
    ensures !IsValidDomain(domain) ==> r == Rejected(InvalidName(domain))
    ensures IsValidDomain(domain) && !IsValidSubdomain(subdomain) ==> r == Rejected(InvalidName(subdomain))
    ensures CheckNames(domain, subdomain).None? && !IsAddressType(recordType) ==> r == Rejected(InvalidRecordType(subdomain))
    ensures |r.calls| > 0 <==> CheckNames(domain, subdomain).None? && IsAddressType(recordType)
    ensures |r.calls| > 0 ==> r.calls[0] == Lookup(Query(domain, subdomain, recordType))
    ensures |r.calls| == 1 ==> r.outcome == Fail(NoAddressRecord(recordType, subdomain))
    ensures |r.calls| > 0 ==> (|r.calls| == 2 <==> env.lookup(r.calls[0].query).Success?)
    ensures Written(r).Some? ==> Written(r).value == DestroyRecord(domain, Decimal(env.lookup(r.calls[0].query).value.id))
  {
    match CheckNames(domain, subdomain)
    case Some(e) => Rejected(e)
    case None =>
      if !IsAddressType(recordType) then Rejected(InvalidRecordType(subdomain))
      else
        var query := Query(domain, subdomain, recordType);
        match env.lookup(query)
        case Failure(_) => Run(Fail(NoAddressRecord(recordType, subdomain)), [Lookup(query)])
        case Success(existing) =>
          var write := DestroyRecord(domain, Decimal(existing.id));
          Run(Reply(env.respond(write)), [Lookup(query), Write(write)])
  }

  // ---------------------------------------------------------------------------
  // The editor over the shipped locator
  // ---------------------------------------------------------------------------

  /** The editor wired to the package's own info provider: every lookup is
      answered by the locator from the client's record list. */
  function LocatorEnv(client: Locator.Client, respond: WriteCall -> Option<Error>, show: IP -> string): Env
  {
    Env((q: Query) => Locator.GetSubdomainRecord(client, q.domain, q.subdomain, q.recordType), respond, show)
  }

  /** Over the locator, create (as written) issues its write exactly when the
      client already lists a record of the subdomain with the IP's type; a
      failing record fetch ends it without a write. */
  lemma CreateThroughLocator(client: Locator.Client, respond: WriteCall -> Option<Error>, show: IP -> string,
                             domain: string, subdomain: string, timeToLive: int, ip: IP, ttlText: int -> string)
    requires IsValidDomain(domain) && IsValidSubdomain(subdomain)
    ensures var r := CreateSubdomain(LocatorEnv(client, respond, show), domain, subdomain, timeToLive, Some(ip), ttlText);
            var fetched := client.getRecords(domain);
            Written(r).Some? <==>
              fetched.Success? &&
              exists i :: 0 <= i < |fetched.value| && Locator.IsSubdomainRecord(fetched.value[i], subdomain, RecordTypeByIP(ip))
  {
  }

  /** Over the locator, update rewrites the first record of the subdomain
      with the IP's type, and only when that record holds another address;
      the request keeps the subdomain, the type and the record's TTL. */
  lemma UpdateThroughLocator(client: Locator.Client, respond: WriteCall -> Option<Error>, show: IP -> string,
                             domain: string, subdomain: string, ip: IP, i: nat)
    requires IsValidDomain(domain) && IsValidSubdomain(subdomain)
    requires client.getRecords(domain).Success?
    requires Locator.FirstMatch(client.getRecords(domain).value, subdomain, RecordTypeByIP(ip), i)
    ensures var r := UpdateSubdomain(LocatorEnv(client, respond, show), domain, subdomain, Some(ip));
            var existing := client.getRecords(domain).value[i];
            && (existing.content == show(ip) ==> r.outcome == Fail(NoUpdateRequired(show(ip))) && Written(r).None?)
            && (existing.content != show(ip) ==>
                  Written(r) == Some(UpdateRecord(domain, Decimal(existing.id),
                                       ChangeRecord(subdomain, show(ip), RecordTypeByIP(ip), Decimal(existing.ttl)))))
  {
    var records := client.getRecords(domain).value;
    var found := Locator.GetSubdomainRecord(client, domain, subdomain, RecordTypeByIP(ip));
    assert found.Success?;
    var j: nat :| Locator.FirstMatch(records, subdomain, RecordTypeByIP(ip), j) && found.value == records[j];
    Locator.FirstMatchUnique(records, subdomain, RecordTypeByIP(ip), i, j);
  }

  /** Over the locator, delete destroys the first record of the subdomain and
      type, by its id; with no such record it writes nothing. */
  lemma DeleteThroughLocator(client: Locator.Client, respond: WriteCall -> Option<Error>, show: IP -> string,
                             domain: string, subdomain: string, recordType: string)
    requires IsValidDomain(domain) && IsValidSubdomain(subdomain) && IsAddressType(recordType)
    requires client.getRecords(domain).Success?
    ensures var r := DeleteSubdomain(LocatorEnv(client, respond, show), domain, subdomain, recordType);
            var records := client.getRecords(domain).value;
            && (Written(r).None? <==> forall i :: 0 <= i < |records| ==> !Locator.IsSubdomainRecord(records[i], subdomain, recordType))
            && (forall i: nat :: Locator.FirstMatch(records, subdomain, recordType, i) ==>
                  Written(r) == Some(DestroyRecord(domain, Decimal(records[i].id))))
  {
    var records := client.getRecords(domain).value;
    var found := Locator.GetSubdomainRecord(client, domain, subdomain, recordType);
    forall i: nat | Locator.FirstMatch(records, subdomain, recordType, i)
      ensures Written(DeleteSubdomain(LocatorEnv(client, respond, show), domain, subdomain, recordType))
              == Some(DestroyRecord(domain, Decimal(records[i].id)))
    {
      var j: nat :| Locator.FirstMatch(records, subdomain, recordType, j) && found.value == records[j];
      Locator.FirstMatchUnique(records, subdomain, recordType, i, j);
    }
  }

  /** The client's record list for `domain` after it has applied an update
      of the record at position `i` to `value`. */
  function AfterUpdate(client: Locator.Client, domain: string, i: nat, value: string): Locator.Client
    requires client.getRecords(domain).Success? && i < |client.getRecords(domain).value|
  {
    var records := client.getRecords(domain).value;
    var updated := records[i := records[i].(content := value)];
    Locator.Client((d: string) => if d == domain then Success(updated) else client.getRecords(d), client.getDomains)
  }

  /** Updating twice to the same address writes once: once the client has
      applied the first update, the second finds the address in place and
      stops with "no update required" before any write. */
  lemma UpdateTwiceWritesOnce(client: Locator.Client, respond: WriteCall -> Option<Error>, show: IP -> string,
                              domain: string, subdomain: string, ip: IP, i: nat)
    requires IsValidDomain(domain) && IsValidSubdomain(subdomain)
    requires client.getRecords(domain).Success?
    requires Locator.FirstMatch(client.getRecords(domain).value, subdomain, RecordTypeByIP(ip), i)
    ensures var client' := AfterUpdate(client, domain, i, show(ip));
            var r := UpdateSubdomain(LocatorEnv(client', respond, show), domain, subdomain, Some(ip));
            r == Run(Fail(NoUpdateRequired(show(ip))), [Lookup(Query(domain, subdomain, RecordTypeByIP(ip)))])
  {
    var client' := AfterUpdate(client, domain, i, show(ip));
    var records' := client'.getRecords(domain).value;
    assert Locator.FirstMatch(records', subdomain, RecordTypeByIP(ip), i);
    UpdateThroughLocator(client', respond, show, domain, subdomain, ip, i);
  }

  // ---------------------------------------------------------------------------
  // The cases dnseditor_*_test.go pin down
  // ---------------------------------------------------------------------------

  /** "example.com" and "www", the valid arguments of the editor tests. */
  lemma ExampleNamesValid(domain: string, subdomain: string)
    requires domain == "example.com" && subdomain == "www"
    ensures CheckNames(domain, subdomain).None?
  {
    NotBlank(domain, 0);
    AcceptedLabelExamples(subdomain);
  }

  /** A blank domain is rejected by every operation before any call. */
  lemma BlankDomainExamples(env: Env, domain: string, subdomain: string, ip: IP, ttlText: int -> string)
    requires domain == "" || domain == " "
    ensures CreateSubdomain(env, domain, subdomain, 600, Some(ip), ttlText) == Rejected(InvalidName(domain))
    ensures UpdateSubdomain(env, domain, subdomain, Some(ip)) == Rejected(InvalidName(domain))
    ensures DeleteSubdomain(env, domain, subdomain, TypeAAAA) == Rejected(InvalidName(domain))
  {
    BlankExamples(domain);
  }

  /** The subdomain " - " is rejected by every operation before any call. */
  lemma InvalidSubdomainExamples(env: Env, domain: string, subdomain: string, ip: IP, ttlText: int -> string)
    requires domain == "example.com" && subdomain == " - "
    ensures CreateSubdomain(env, domain, subdomain, 600, Some(ip), ttlText) == Rejected(InvalidName(subdomain))
    ensures UpdateSubdomain(env, domain, subdomain, Some(ip)) == Rejected(InvalidName(subdomain))
    ensures DeleteSubdomain(env, domain, subdomain, TypeAAAA) == Rejected(InvalidName(subdomain))
  {
    ExampleNamesValid(domain, "www");
    RejectDotless(subdomain, 0);
    assert CheckNames(domain, subdomain) == Some(InvalidName(subdomain));
  }

  /** A nil IP and the record type "-AAAA-" are rejected before any call. */
  lemma MissingArgumentExamples(env: Env, domain: string, subdomain: string, recordType: string, ttlText: int -> string)
    requires domain == "example.com" && subdomain == "www" && recordType == "-AAAA-"
    ensures CreateSubdomain(env, domain, subdomain, 600, None, ttlText) == Rejected(MissingIP)
    ensures UpdateSubdomain(env, domain, subdomain, None) == Rejected(MissingIP)
    ensures DeleteSubdomain(env, domain, subdomain, recordType) == Rejected(InvalidRecordType(subdomain))
  {
    ExampleNamesValid(domain, subdomain);
  }

  /** The update of dnseditor_update_test.go:185-239: the record holding ::1
      with TTL 600 is moved to ::2 keeping its name, type and TTL "600". */
  lemma OnlyValueChangesExample(env: Env, domain: string, subdomain: string, ip: IP, existing: Record)
    requires domain == "example.com" && subdomain == "www"
    requires existing == Record(0, "example.com", "::1", "AAAA", 600)
    requires env.show(ip) == "::2"
    requires env.lookup(Query(domain, subdomain, RecordTypeByIP(ip))) == Success(existing)
    ensures Written(UpdateSubdomain(env, domain, subdomain, Some(ip)))
            == Some(UpdateRecord(domain, "0", ChangeRecord("example.com", "::2", "AAAA", "600")))
  {
    ExampleNamesValid(domain, subdomain);
    assert existing.content != env.show(ip) by {
      assert existing.content[2] != env.show(ip)[2];
    }
    DecimalExamples();
  }

  /** The id 0 and the TTL 600 of the update test, as `%d` renders them. */
  lemma DecimalExamples()
    ensures Decimal(0) == "0" && Decimal(600) == "600"
  {
    assert Digits(60) == "60";
  }
}
