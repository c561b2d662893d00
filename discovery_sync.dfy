/** The discovery metadata sync: validate the records file, then post each record to the
    metadata service, after an optional backup. */
module DiscoverySync {
  import opened Text
  import opened Json

  const DefaultGuidType: string := "discovery_metadata"
  const DefaultGuidField: string := "_hdp_uid"

  datatype Mode = Backup | Publish | Both
  datatype Environment = Dev | Prod

  /** The commons each environment publishes to by default. */
  function EnvironmentApi(environment: Environment): string {
    match environment
    case Dev => "https://dev-virtuallab.themmrf.org/"
    case Prod => "https://virtuallab.themmrf.org/"
  }

  /** The API URL: --api when given and non-empty, otherwise the environment's default. */
  function ApiUrl(api: Option<string>, environment: Environment): (url: string)
    ensures api.Some? && api.value != "" ==> url == api.value
    ensures (api.None? || api.value == "") ==> url == EnvironmentApi(environment)
  {
    if api.Some? && api.value != "" then api.value else EnvironmentApi(environment)
  }

  // ---------------------------------------------------------------------------
  // load_records

  /** Why a records file is refused; record indices count from 1. */
  datatype RecordsError = NotAnArray | NotAnObject(index: nat) | MissingGuid(index: nat)

  /** A record carries its GUID when the field is present and is not a string of
      whitespace only (GuidPresentIff shows this is str(value).strip() being non-empty). */
  predicate HasGuid(record: Json, guidField: string)
    requires record.JObject?
  {
    var v := Lookup(record.members, guidField);
    v.Some? && !(v.value.JString? && IsBlank(v.value.s))
  }

  predicate ValidRecord(record: Json, guidField: string) {
    record.JObject? && HasGuid(record, guidField)
  }

  /** How many elements at the front of `s` satisfy `p`. */
  function Leading<T>(s: seq<T>, p: T -> bool): (k: nat)
    ensures k <= |s|
  {
    if s == [] || !p(s[0]) then 0 else 1 + Leading(s[1..], p)
  }

  /** The elements before position `Leading` satisfy `p`, and the one at it does not. */
  lemma {:induction false} LeadingMeans<T>(s: seq<T>, p: T -> bool)
    ensures forall j :: 0 <= j < Leading(s, p) ==> p(s[j])
    ensures Leading(s, p) < |s| ==> !p(s[Leading(s, p)])
  {
    if s != [] && p(s[0]) {
      LeadingMeans(s[1..], p);
      assert forall j :: 1 <= j < |s| ==> s[1..][j - 1] == s[j];
    }
  }

  /** Leading is the first position where `p` fails, or the length when it never does. */
  lemma {:induction false} LeadingIs<T>(s: seq<T>, p: T -> bool, k: nat)
    requires k <= |s|
    requires forall j :: 0 <= j < k ==> p(s[j])
    requires k == |s| || !p(s[k])
    ensures Leading(s, p) == k
  {
    if k > 0 {
      assert p(s[0]);
      assert forall j :: 0 <= j < k - 1 ==> s[1..][j] == s[j + 1];
      LeadingIs(s[1..], p, k - 1);
    }
  }

  function RecordCheck(guidField: string): Json -> bool {
    (record: Json) => ValidRecord(record, guidField)
  }

  /** load_records, given the payload json.load produced: the records are checked in
      order and the first one refused is reported by its 1-based index. */
  function LoadRecords(payload: Json, guidField: string): Result<seq<Json>, RecordsError> {
    if !payload.JArray? then Err(NotAnArray)
    else
      var k := Leading(payload.items, RecordCheck(guidField));
      if k == |payload.items| then Ok(payload.items)
      else if !payload.items[k].JObject? then Err(NotAnObject(k + 1))
      else Err(MissingGuid(k + 1))
  }

  /** A payload that is not an array is refused. */
  lemma LoadRecordsNeedsArray(payload: Json, guidField: string)
    requires !payload.JArray?
    ensures LoadRecords(payload, guidField) == Err(NotAnArray)
  {
  }

  /** An array is returned unchanged, in the same order, exactly when each of its elements
      is an object with a GUID. */
  lemma LoadRecordsAccepts(payload: Json, guidField: string)
    requires payload.JArray?
    ensures LoadRecords(payload, guidField).Ok? <==>
      forall i :: 0 <= i < |payload.items| ==> ValidRecord(payload.items[i], guidField)
    ensures LoadRecords(payload, guidField).Ok? ==> LoadRecords(payload, guidField).value == payload.items
  {
    var p := RecordCheck(guidField);
    LeadingMeans(payload.items, p);
    var k := Leading(payload.items, p);
    if k < |payload.items| {
      assert !ValidRecord(payload.items[k], guidField);
    }
  }

  /** A refused array is reported at its first offending element, by 1-based index: as not
      an object, or as an object without a GUID. */
  lemma LoadRecordsRefusesFirst(payload: Json, guidField: string) returns (i: nat)
    requires payload.JArray? && LoadRecords(payload, guidField).Err?
    ensures i < |payload.items|
    ensures forall j :: 0 <= j < i ==> ValidRecord(payload.items[j], guidField)
    ensures !payload.items[i].JObject? ==> LoadRecords(payload, guidField) == Err(NotAnObject(i + 1))
    ensures payload.items[i].JObject? ==>
      !HasGuid(payload.items[i], guidField) && LoadRecords(payload, guidField) == Err(MissingGuid(i + 1))
  {
    var p := RecordCheck(guidField);
    LeadingMeans(payload.items, p);
    i := Leading(payload.items, p);
    assert forall j :: 0 <= j < i ==> p(payload.items[j]);
  }

  /** A record has its GUID exactly when the field is present and str() of its value,
      stripped, is not empty: null, numbers, booleans, lists and objects all count. */
  lemma GuidPresentIff(record: Json, guidField: string)
    requires record.JObject?
    ensures HasGuid(record, guidField) <==>
      Lookup(record.members, guidField).Some? && Strip(PyStr(Lookup(record.members, guidField).value)) != ""
  {
    var v := Lookup(record.members, guidField);
    if v.Some? {
      StrBlankIff(v.value);
    }
  }

  // ---------------------------------------------------------------------------
  // publish_discovery_metadata

  /** The GUID a record is published under: str() of its field, stripped (empty for a
      record without the field, which validation has already refused). */
  function GuidOf(record: Json, guidField: string): (guid: string)
    ensures ValidRecord(record, guidField) ==> guid != "" && guid == Strip(PyStr(Lookup(record.members, guidField).value))
  {
    if !record.JObject? then ""
    else
      match Lookup(record.members, guidField)
      case None => ""
      case Some(v) => Strip(PyStr(v))
  }

  /** The metadata URL: the endpoint without trailing slashes, the metadata path, the
      GUID and the overwrite flag. */
  function PublishUrl(endpoint: string, guid: string): string {
    RStripChar(endpoint, '/') + "/mds/metadata/" + guid + "?overwrite=True"
  }

  /** The body posted for a record. */
  function Payload(guidType: string, record: Json): Json {
    JObject([("_guid_type", JString(guidType)), ("gen3_discovery", record)])
  }

  /** Trailing slashes on the endpoint do not change the URL, and the URL ends with the
      GUID followed by the overwrite flag. */
  lemma PublishUrlShape(endpoint: string, slashes: string, guid: string)
    requires AllChar(slashes, '/') && (endpoint == [] || endpoint[|endpoint| - 1] != '/')
    ensures PublishUrl(endpoint + slashes, guid) == endpoint + "/mds/metadata/" + guid + "?overwrite=True"
    ensures PublishUrl(endpoint + slashes, guid) == PublishUrl(endpoint, guid)
  {
    RStripCharRun(endpoint, slashes, '/');
    RStripCharRun(endpoint, "", '/');
    assert endpoint + "" == endpoint;
  }

  /** The posted body names the GUID type and carries the record unchanged. */
  lemma PayloadCarriesRecord(guidType: string, record: Json)
    ensures Lookup(Payload(guidType, record).members, "_guid_type") == Some(JString(guidType))
    ensures Lookup(Payload(guidType, record).members, "gen3_discovery") == Some(record)
    ensures |Payload(guidType, record).members| == 2
  {
    var m := Payload(guidType, record).members;
    assert m[..1] == [("_guid_type", JString(guidType))];
    assert m[..1][..0] == [];
  }

  datatype Request = Request(url: string, body: Json)

  /** The request for each record, in order. */
  function Requests(endpoint: string, records: seq<Json>, guidType: string, guidField: string): (reqs: seq<Request>)
    ensures |reqs| == |records|
  {
    seq(|records|, i requires 0 <= i < |records| =>
      Request(PublishUrl(endpoint, GuidOf(records[i], guidField)), Payload(guidType, records[i])))
  }

  datatype SyncError = Records(error: RecordsError) | PostRefused(url: string) | BackupFailed(endpoint: string)

  /** The publish loop's outcome and the requests it sends: none in a dry run, otherwise
      every request up to and including the first refused one. */
  function PublishRun(reqs: seq<Request>, post: Request -> bool, dryRun: bool): (Result<nat, SyncError>, seq<Request>) {
    if dryRun then (Ok(0), [])
    else
      var k := Leading(reqs, post);
      if k == |reqs| then (Ok(k), reqs) else (Err(PostRefused(reqs[k].url)), reqs[..k + 1])
  }

  /** A dry run sends nothing and counts 0; otherwise the requests go out in record order,
      the first refused one ends the run with its URL, and when none is refused the count
      is the number of records. */
  lemma PublishRunMeans(reqs: seq<Request>, post: Request -> bool, dryRun: bool)
    ensures dryRun ==> PublishRun(reqs, post, dryRun) == (Ok(0), [])
    ensures !dryRun ==>
      var (r, sent) := PublishRun(reqs, post, dryRun);
      && |sent| <= |reqs| && sent == reqs[..|sent|]
      && (r.Ok? <==> forall j :: 0 <= j < |reqs| ==> post(reqs[j]))
      && (r.Ok? ==> r.value == |reqs| && sent == reqs)
      && (r.Err? ==>
            && sent != [] && !post(sent[|sent| - 1]) && r.error == PostRefused(sent[|sent| - 1].url)
            && forall j :: 0 <= j < |sent| - 1 ==> post(sent[j]))
  {
    if !dryRun {
      LeadingMeans(reqs, post);
    }
  }

  /** The first refused post ends the run with its URL, after sending it. */
  lemma PublishRunStops(reqs: seq<Request>, post: Request -> bool, i: nat)
    requires i < |reqs| && !post(reqs[i])
    requires forall j :: 0 <= j < i ==> post(reqs[j])
    ensures PublishRun(reqs, post, false) == (Err(PostRefused(reqs[i].url)), reqs[..i + 1])
  {
    LeadingIs(reqs, post, i);
  }

  /** When no post is refused, every request is sent and counted. */
  lemma PublishRunCompletes(reqs: seq<Request>, post: Request -> bool)
    requires forall j :: 0 <= j < |reqs| ==> post(reqs[j])
    ensures PublishRun(reqs, post, false) == (Ok(|reqs|), reqs)
  {
    LeadingIs(reqs, post, |reqs|);
  }

  /** One pass of the publish loop: the next request extends the requests sent so far; an
      accepted post keeps every sent request accepted, a refused one ends the run. */
  lemma PublishStep(reqs: seq<Request>, post: Request -> bool, i: nat, sent: seq<Request>)
    requires i < |reqs| && sent == reqs[..i]
    requires forall j :: 0 <= j < |sent| ==> post(sent[j])
    ensures sent + [reqs[i]] == reqs[..i + 1]
    ensures post(reqs[i]) ==> forall j :: 0 <= j < |sent + [reqs[i]]| ==> post((sent + [reqs[i]])[j])
    ensures !post(reqs[i]) ==> PublishRun(reqs, post, false) == (Err(PostRefused(reqs[i].url)), sent + [reqs[i]])
  {
    assert reqs[..i + 1] == reqs[..i] + [reqs[i]];
    if !post(reqs[i]) {
      assert forall j :: 0 <= j < i ==> post(reqs[j]) by {
        assert forall j :: 0 <= j < i ==> sent[j] == reqs[j];
      }
      PublishRunStops(reqs, post, i);
    }
  }

  /** After the last request every request has been sent and accepted. */
  lemma PublishDone(reqs: seq<Request>, post: Request -> bool, sent: seq<Request>)
    requires sent == reqs[..|reqs|]
    requires forall j :: 0 <= j < |sent| ==> post(sent[j])
    ensures PublishRun(reqs, post, false) == (Ok(|reqs|), sent)
  {
    assert reqs[..|reqs|] == reqs;
    PublishRunCompletes(reqs, post);
  }

  /** publish_discovery_metadata: post each record in order, counting each accepted post;
      a refused post ends the loop. In a dry run nothing is posted. */
  method PublishDiscoveryMetadata(endpoint: string, records: seq<Json>, guidType: string, guidField: string,
                                  dryRun: bool, post: Request -> bool)
    returns (r: Result<nat, SyncError>, sent: seq<Request>)
    requires forall i :: 0 <= i < |records| ==> ValidRecord(records[i], guidField)
    ensures (r, sent) == PublishRun(Requests(endpoint, records, guidType, guidField), post, dryRun)
  {
    ghost var reqs := Requests(endpoint, records, guidType, guidField);
    var publishedCount := 0;
    sent := [];
    for i := 0 to |records|
      invariant dryRun ==> publishedCount == 0 && sent == []
      invariant !dryRun ==> publishedCount == i && sent == reqs[..i]
      invariant !dryRun ==> forall j :: 0 <= j < |sent| ==> post(sent[j])
    {
      var guid := GuidOf(records[i], guidField);
      var payload := Payload(guidType, records[i]);
      var publishUrl := PublishUrl(endpoint, guid);
      if dryRun {
        continue;
      }
      var request := Request(publishUrl, payload);
      assert request == reqs[i];
      PublishStep(reqs, post, i, sent);
      sent := sent + [request];
      if !post(request) {
        return Err(PostRefused(publishUrl)), sent;
      }
      publishedCount := publishedCount + 1;
    }
    if !dryRun {
      PublishDone(reqs, post, sent);
    }
    r := Ok(publishedCount);
  }

  // ---------------------------------------------------------------------------
  // main

  /** What the sync does with the outside world, in order. */
  datatype Event = BackedUp(endpoint: string) | Sent(request: Request)

  predicate BacksUp(mode: Mode) { mode == Backup || mode == Both }
  predicate Publishes(mode: Mode) { mode == Publish || mode == Both }

  function SentEvents(sent: seq<Request>): (events: seq<Event>)
    ensures |events| == |sent|
  {
    seq(|sent|, i requires 0 <= i < |sent| => Sent(sent[i]))
  }

  /** main after argument parsing: pick the API URL, back up when the mode says so, then
      load the records and publish them when the mode says so. `backup` tells whether a
      backup of an endpoint succeeds; `payload` is the records file as json.load reads it.
      The result is the number of records published. */
  function SyncRun(mode: Mode, environment: Environment, api: Option<string>, backup: string -> bool,
                   payload: Json, guidType: string, guidField: string, dryRun: bool, post: Request -> bool)
    : (Result<nat, SyncError>, seq<Event>)
  {
    var url := ApiUrl(api, environment);
    var backupEvents := BackupEvents(mode, url);
    if BacksUp(mode) && !backup(url) then (Err(BackupFailed(url)), backupEvents)
    else if !Publishes(mode) then (Ok(0), backupEvents)
    else
      match LoadRecords(payload, guidField)
      case Err(e) => (Err(Records(e)), backupEvents)
      case Ok(records) =>
        var (r, sent) := PublishRun(Requests(url, records, guidType, guidField), post, dryRun);
        (r, backupEvents + SentEvents(sent))
  }

  /** main: the control flow of the sync. */
  method Sync(mode: Mode, environment: Environment, api: Option<string>, backup: string -> bool,
              payload: Json, guidType: string, guidField: string, dryRun: bool, post: Request -> bool)
    returns (r: Result<nat, SyncError>, events: seq<Event>)
    ensures (r, events) == SyncRun(mode, environment, api, backup, payload, guidType, guidField, dryRun, post)
  {
    var apiUrl := ApiUrl(api, environment);
    events := [];
    if BacksUp(mode) {
      events := [BackedUp(apiUrl)];
      if !backup(apiUrl) {
        return Err(BackupFailed(apiUrl)), events;
      }
    }
    r := Ok(0);
    if Publishes(mode) {
      var records := LoadRecords(payload, guidField);
      if records.Err? {
        return Err(Records(records.error)), events;
      }
      LoadRecordsAccepts(payload, guidField);
      var sent;
      r, sent := PublishDiscoveryMetadata(apiUrl, records.value, guidType, guidField, dryRun, post);
      events := events + SentEvents(sent);
    }
  }

  function BackupEvents(mode: Mode, url: string): seq<Event> {
    if BacksUp(mode) then [BackedUp(url)] else []
  }

  /** The events of a sync are the backup, when the mode asks for one, followed by the
      requests posted. Requests are posted only in the publish and both modes, only after a
      successful backup, only for a valid records file and never in a dry run; they are the
      records' requests to the chosen API URL, in record order. */
  lemma SyncEvents(mode: Mode, environment: Environment, api: Option<string>, backup: string -> bool,
                   payload: Json, guidType: string, guidField: string, dryRun: bool, post: Request -> bool)
    ensures var url := ApiUrl(api, environment);
      var sent := SyncSent(mode, environment, api, backup, payload, guidType, guidField, dryRun, post);
      && SyncRun(mode, environment, api, backup, payload, guidType, guidField, dryRun, post).1
           == BackupEvents(mode, url) + SentEvents(sent)
      && (sent != [] ==>
            && Publishes(mode) && (BacksUp(mode) ==> backup(url)) && !dryRun
            && LoadRecords(payload, guidField).Ok?
            && |sent| <= |LoadRecords(payload, guidField).value|
            && sent == Requests(url, LoadRecords(payload, guidField).value, guidType, guidField)[..|sent|])
  {
    var url := ApiUrl(api, environment);
    if !(BacksUp(mode) && !backup(url)) && Publishes(mode) && LoadRecords(payload, guidField).Ok? {
      var records := LoadRecords(payload, guidField).value;
      PublishRunMeans(Requests(url, records, guidType, guidField), post, dryRun);
    } else {
      assert SentEvents([]) == [];
    }
  }

  /** The requests a sync posts. */
  function SyncSent(mode: Mode, environment: Environment, api: Option<string>, backup: string -> bool,
                    payload: Json, guidType: string, guidField: string, dryRun: bool, post: Request -> bool)
    : seq<Request>
  {
    var url := ApiUrl(api, environment);
    if (BacksUp(mode) && !backup(url)) || !Publishes(mode) || LoadRecords(payload, guidField).Err? then []
    else PublishRun(Requests(url, LoadRecords(payload, guidField).value, guidType, guidField), post, dryRun).1
  }

  /** A backup happens exactly in the backup and both modes, against the chosen API URL,
      and it is the first event: no request is posted before it. */
  lemma BackupComesFirst(mode: Mode, environment: Environment, api: Option<string>, backup: string -> bool,
                         payload: Json, guidType: string, guidField: string, dryRun: bool, post: Request -> bool)
    ensures var events := SyncRun(mode, environment, api, backup, payload, guidType, guidField, dryRun, post).1;
      && ((exists i :: 0 <= i < |events| && events[i].BackedUp?) <==> BacksUp(mode))
      && (forall i :: 0 <= i < |events| && events[i].BackedUp? ==>
            i == 0 && events[i].endpoint == ApiUrl(api, environment))
  {
    SyncEvents(mode, environment, api, backup, payload, guidType, guidField, dryRun, post);
    TraceShape(mode, ApiUrl(api, environment),
      SyncSent(mode, environment, api, backup, payload, guidType, guidField, dryRun, post));
  }

  /** In a trace made of the backup events and then sent requests, the only backup is the
      first event, and there is one exactly when the mode backs up. */
  lemma TraceShape(mode: Mode, url: string, sent: seq<Request>)
    ensures var events := BackupEvents(mode, url) + SentEvents(sent);
      && ((exists i :: 0 <= i < |events| && events[i].BackedUp?) <==> BacksUp(mode))
      && (forall i :: 0 <= i < |events| && events[i].BackedUp? ==> i == 0 && events[i].endpoint == url)
  {
    var front := BackupEvents(mode, url);
    var events := front + SentEvents(sent);
    assert forall i :: |front| <= i < |events| ==> events[i] == Sent(sent[i - |front|]);
    if BacksUp(mode) {
      assert events[0].BackedUp?;
    }
  }

  /** Each posted request goes to the metadata URL of its record's GUID under the chosen
      API URL, and carries that record. */
  lemma PostedRequests(mode: Mode, environment: Environment, api: Option<string>, backup: string -> bool,
                       payload: Json, guidType: string, guidField: string, dryRun: bool, post: Request -> bool)
    ensures var sent := SyncSent(mode, environment, api, backup, payload, guidType, guidField, dryRun, post);
      forall k :: 0 <= k < |sent| ==>
        && sent[k].url == PublishUrl(ApiUrl(api, environment), GuidOf(payload.items[k], guidField))
        && sent[k].body == Payload(guidType, payload.items[k])
  {
    SyncEvents(mode, environment, api, backup, payload, guidType, guidField, dryRun, post);
    var sent := SyncSent(mode, environment, api, backup, payload, guidType, guidField, dryRun, post);
    if sent != [] {
      LoadRecordsAccepts(payload, guidField);
      RequestsPrefix(ApiUrl(api, environment), payload.items, guidType, guidField, sent);
    }
  }

  /** A prefix of the requests holds, at each position, the request of that record. */
  lemma RequestsPrefix(endpoint: string, records: seq<Json>, guidType: string, guidField: string, sent: seq<Request>)
    requires |sent| <= |records| && sent == Requests(endpoint, records, guidType, guidField)[..|sent|]
    ensures forall k :: 0 <= k < |sent| ==>
      && sent[k].url == PublishUrl(endpoint, GuidOf(records[k], guidField))
      && sent[k].body == Payload(guidType, records[k])
  {
  }

  /** In a dry run nothing is posted and the count is 0; otherwise, when every post is
      accepted, the count is the number of records in the file. */
  lemma SyncCounts(mode: Mode, environment: Environment, api: Option<string>, backup: string -> bool,
                   payload: Json, guidType: string, guidField: string, dryRun: bool, post: Request -> bool)
    requires Publishes(mode) && (BacksUp(mode) ==> backup(ApiUrl(api, environment)))
    requires LoadRecords(payload, guidField).Ok?
    ensures var (r, events) := SyncRun(mode, environment, api, backup, payload, guidType, guidField, dryRun, post);
      && (dryRun ==> r == Ok(0) && forall i :: 0 <= i < |events| ==> events[i].BackedUp?)
      && (!dryRun && r.Ok? ==> r.value == |payload.items|)
  {
    var url := ApiUrl(api, environment);
    var records := LoadRecords(payload, guidField).value;
    LoadRecordsAccepts(payload, guidField);
    var reqs := Requests(url, records, guidType, guidField);
    PublishRunMeans(reqs, post, dryRun);
    var run := PublishRun(reqs, post, dryRun);
    assert SyncRun(mode, environment, api, backup, payload, guidType, guidField, dryRun, post)
      == (run.0, BackupEvents(mode, url) + SentEvents(run.1));
    if dryRun {
      assert SentEvents(run.1) == [];
    }
  }
}
