/** The synchronisation rules of the FogBugz service: how a feature and its
    requirements become FogBugz cases, and how a FogBugz status change comes
    back as an Aha! workflow category.

    The two remote systems are oracles held in `Env`: each is asked with the
    whole log of calls issued so far, the call it answers being the last one,
    so a reply may depend on everything that happened before. `Sync` and
    `Webhook` give the calls one entry point issues and what it returns; the
    class in FogbugzService is proved to behave exactly like them. */
module Fogbugz {
  import opened RubyValues

  // ------------------------------------------------------------------ data

  /** An attachment of a record's description. */
  datatype Attachment = Attachment(fileName: string, downloadUrl: string)

  /** An Aha! feature or requirement. `caseNumber` is the value that the
      record's integration fields hold under `number` for this integration
      (None before the first sync). A record without a requirements list is
      one whose list is empty: the sync treats the two alike. */
  datatype Record = Record(
    referenceNum: string,
    name: string,
    body: string,
    attachments: seq<Attachment>,
    tags: Value,
    caseNumber: Option<string>,
    requirements: seq<Record>)

  /** The parameters hash of a FogBugz command; Ruby's symbol keys are written as strings. */
  type Params = map<string, Value>

  /** The handle that opening an attachment's download URL yields; the download itself is not modelled. */
  datatype FileHandle = Opened(url: string)

  /** One entry of the attachments list of a command. */
  datatype Upload = Upload(filename: string, file: FileHandle)

  datatype Command = New | Edit

  /** An Aha! resource as found through its integration fields. */
  datatype Resource = Resource(resource: string)

  /** What the Aha! search over integration fields answers. */
  datatype Lookup = NotFound | Found(feature: Option<Resource>, requirement: Option<Resource>)

  /** One call on the FogBugz API or the Aha! API, in the order issued. */
  datatype Call =
    | Search(q: string, cols: string)
    | CaseCommand(command: Command, parameters: Params, attachments: seq<Option<Upload>>)
    | CreateIntegrationFields(resourceType: string, referenceNum: string, service: string, number: Value, url: string)
    | SearchIntegrationFields(integrationId: string, field: string, value: Value)
    | Put(resource: string, body: Value)

  /** The configuration of one integration and the collaborators it talks to. */
  datatype Env = Env(
    fogbugzUrl: string,
    projects: string,
    integrationId: string,
    serviceName: string,
    sanitize: string -> string,         // the markup stripping applied to a description body
    resourceType: string -> string,     // the resource type named by a reference number
    inspect: Value -> string,           // Ruby's rendering of a Hash or an Array inside a string
    tracker: seq<Call> -> Value,        // the FogBugz reply to the last call of the log
    integrations: seq<Call> -> Lookup)  // the Aha! reply to the last call of the log

  /** The calls issued so far and what the entry point returned or raised. */
  datatype Step<+T> = Step(log: seq<Call>, result: Result<T>)

  function Get(p: map<string, Value>, k: string): Value {
    if k in p then p[k] else Nil
  }

  // ------------------------------------------------------- status mapping

  /** The statuses listed in the mapping with nothing after them. */
  const EmptyWhenStatuses: set<string> := {
    "Resolved (Not Reproducible)", "Resolved (Duplicate)", "Resolved (Postponed)",
    "Resolved (Won't Fix)", "Resolved (By Design)", "Closed (Not Reproducible)",
    "Closed (Duplicate)", "Closed (Postponed)", "Closed (Won't Fix)"}

  /** The statuses that yield a category as the mapping is written. */
  const AsWrittenTable: map<string, string> := map[
    "Active" := "in_progress",
    "Resolved (Fixed)" := "done",
    "Closed (Fixed)" := "shipped",
    "Closed (By Design)" := "will_not_implement"]

  /** The mapping as written: a `when` with an empty body yields nil, so of the
      ten resolved and closed variants only "Closed (By Design)" yields a category. */
  function CategoryAsWritten(status: Value): (r: Option<string>)
    ensures status.Text? && status.s in AsWrittenTable ==> r == Some(AsWrittenTable[status.s])
    ensures !(status.Text? && status.s in AsWrittenTable) ==> r == None
  {
    match status
    case Text(s) =>
      if s == "Active" then Some("in_progress")
      else if s == "Resolved (Fixed)" then Some("done")
      else if s == "Closed (Fixed)" then Some("shipped")
      else if s in EmptyWhenStatuses then None
      else if s == "Closed (By Design)" then Some("will_not_implement")
      else None
    case _ => None
  }

  /** The resolved and closed variants that the mapping lists together above "will_not_implement". */
  const WillNotImplementStatuses: set<string> := EmptyWhenStatuses + {"Closed (By Design)"}

  /** The statuses that yield a category, with that category, as the mapping is meant. */
  const CategoryTable: map<string, string> := map[
    "Active" := "in_progress",
    "Resolved (Fixed)" := "done",
    "Resolved (Not Reproducible)" := "will_not_implement",
    "Resolved (Duplicate)" := "will_not_implement",
    "Resolved (Postponed)" := "will_not_implement",
    "Resolved (Won't Fix)" := "will_not_implement",
    "Resolved (By Design)" := "will_not_implement",
    "Closed (Fixed)" := "shipped",
    "Closed (Not Reproducible)" := "will_not_implement",
    "Closed (Duplicate)" := "will_not_implement",
    "Closed (Postponed)" := "will_not_implement",
    "Closed (Won't Fix)" := "will_not_implement",
    "Closed (By Design)" := "will_not_implement"]

  /** The Aha! workflow category for a FogBugz status, None standing for nil:
      the listed variants share the branch that follows them. */
  function Category(status: Value): (r: Option<string>)
    ensures status.Text? && status.s in CategoryTable ==> r == Some(CategoryTable[status.s])
    ensures !(status.Text? && status.s in CategoryTable) ==> r == None
  {
    match status
    case Text(s) =>
      if s == "Active" then Some("in_progress")
      else if s == "Resolved (Fixed)" then Some("done")
      else if s == "Closed (Fixed)" then Some("shipped")
      else if s in WillNotImplementStatuses then Some("will_not_implement")
      else None
    case _ => None
  }

  /** Each of the nine statuses with an empty branch clears the category as
      written, where the listing means "will_not_implement". */
  lemma EmptyBranchesClearCategory(s: string)
    requires s in EmptyWhenStatuses
    ensures CategoryAsWritten(Text(s)) == None
    ensures Category(Text(s)) == Some("will_not_implement")
  {
  }

  /** The correction changes nothing but those nine statuses. */
  lemma CategoryDiffersOnlyOnEmptyBranches(status: Value)
    ensures Category(status) != CategoryAsWritten(status) <==> status.Text? && status.s in EmptyWhenStatuses
  {
  }

  // ------------------------------------------------------ case lookup

  const SearchColumns := "sLatestTextSummary,latestEvent,tags,File1,sTitle,sStatus,ixStatus"

  /** The search for a case by number; a missing number interpolates as the empty string. */
  function SearchFor(caseNumber: Option<string>): Call {
    Search("case:" + (match caseNumber case Some(n) => n case None => ""), SearchColumns)
  }

  /** The case in a search reply: nil when `cases` or `case` is missing. */
  function FoundCase(reply: Value): (r: Result<Value>)
    ensures reply.Nil? ==> r == Ok(Nil)
    ensures reply.Hash? && "cases" in reply.entries && reply.entries["cases"].Hash? ==>
              r == Ok(Get(reply.entries["cases"].entries, "case"))
    ensures reply.Hash? && Get(reply.entries, "cases").Nil? ==> r == Ok(Nil)
  {
    var cases :- Try(reply, "cases");
    Try(cases, "case")
  }

  // ------------------------------------------------------- parameters

  /** The parameters of a record's command before any diffing. */
  function InitialParameters(env: Env, r: Record, parent: Value): (p: Params)
    ensures p.Keys == {"sTitle", "sEvent", "sTags", "ixProject"} + (if Truthy(parent) then {"ixBugParent"} else {})
    ensures p["sTitle"] == Text(r.name) && p["sEvent"] == Text(env.sanitize(r.body))
    ensures p["sTags"] == r.tags && p["ixProject"] == Text(env.projects)
    ensures Truthy(parent) ==> p["ixBugParent"] == parent
  {
    var p := map["sTitle" := Text(r.name), "sEvent" := Text(env.sanitize(r.body)),
                 "sTags" := r.tags, "ixProject" := Text(env.projects)];
    if Truthy(parent) then p["ixBugParent" := parent] else p
  }

  const DiffedKeys: set<string> := {"sTitle", "sEvent", "ixBug"}

  /** The edit diff: the title and the body are dropped when the case already
      has them, and the case's own number is stamped in. */
  function EditParameters(fogbugzCase: Value, p: Params): (r: Result<Params>)
    ensures r.Err? <==> fogbugzCase.Nil? || fogbugzCase.List?
    ensures r.Ok? ==> ("sTitle" in r.value <==> "sTitle" in p && Index(fogbugzCase, "sTitle").value != p["sTitle"])
    ensures r.Ok? ==> ("sEvent" in r.value <==> "sEvent" in p && Index(fogbugzCase, "sLatestTextSummary").value != p["sEvent"])
    ensures r.Ok? ==> "ixBug" in r.value && r.value["ixBug"] == Index(fogbugzCase, "ixBug").value
    ensures r.Ok? ==> forall k :: k in r.value && k != "ixBug" ==> k in p && r.value[k] == p[k]
    ensures r.Ok? ==> forall k :: k in p && k !in DiffedKeys ==> k in r.value
  {
    var title :- Index(fogbugzCase, "sTitle");
    var p1 := if title == Get(p, "sTitle") then p - {"sTitle"} else p;
    var summary :- Index(fogbugzCase, "sLatestTextSummary");
    var p2 := if summary == Get(p1, "sEvent") then p1 - {"sEvent"} else p1;
    var number :- Index(fogbugzCase, "ixBug");
    Ok(p2["ixBug" := number])
  }

  // ------------------------------------------------------- attachments

  /** The `sFileName` of every attachment, in order; the first one that cannot be indexed raises. */
  function FileNames(xs: seq<Value>): (r: Result<seq<Value>>)
    ensures r.Ok? <==> forall i :: 0 <= i < |xs| ==> Index(xs[i], "sFileName").Ok?
    ensures r.Ok? ==> |r.value| == |xs| && forall i :: 0 <= i < |xs| ==> r.value[i] == Index(xs[i], "sFileName").value
  {
    if xs == [] then Ok([])
    else
      match Index(xs[0], "sFileName")
      case Err(e) => Err(e)
      case Ok(first) =>
        match FileNames(xs[1..])
        case Err(e) =>
          assert exists j :: 0 <= j < |xs| - 1 && Index(xs[1..][j], "sFileName").Err?;
          Err(e)
        case Ok(rest) => Ok([first] + rest)
  }

  /** A single Hash stands for a one-element list; an Array is the list; anything else has no `collect`. */
  function AsCollection(a: Value): Result<seq<Value>> {
    match a
    case Hash(_) => Ok([a])
    case List(xs) => Ok(xs)
    case _ => Err(NoMethodError)
  }

  /** The file names attached to a case's latest event; no `rgAttachments` means none. */
  function AttachmentNames(fogbugzCase: Value): Result<seq<Value>> {
    var events :- Index(fogbugzCase, "events");
    var event :- Index(events, "event");
    var rg :- Index(event, "rgAttachments");
    if !Truthy(rg) then Ok([])
    else
      var a :- Index(rg, "attachment");
      var list :- AsCollection(a);
      FileNames(list)
  }

  /** A case shaped as FogBugz returns it: `events`, `event` and `rgAttachments` are hashes. */
  predicate HasEvent(c: map<string, Value>, event: map<string, Value>) {
    Get(c, "events").Hash? && Get(Get(c, "events").entries, "event") == Hash(event)
  }

  lemma {:induction false} NoAttachmentListGivesNone(c: map<string, Value>, event: map<string, Value>)
    requires HasEvent(c, event) && "rgAttachments" !in event
    ensures AttachmentNames(Hash(c)) == Ok([])
  {
  }

  lemma {:induction false} MissingEventRaises(c: map<string, Value>)
    requires !Get(c, "events").Hash? && !Get(c, "events").Text?
    ensures AttachmentNames(Hash(c)).Err?
  {
  }

  /** `events` without an `event` leaves the latest event nil, which has no `[]`. */
  lemma {:induction false} MissingLatestEventRaises(c: map<string, Value>)
    requires Get(c, "events").Hash? && Get(Get(c, "events").entries, "event").Nil?
    ensures AttachmentNames(Hash(c)).Err?
  {
  }

  lemma {:induction false} SingleAttachmentIsOneElementList(c: map<string, Value>, event: map<string, Value>, a: map<string, Value>)
    requires HasEvent(c, event) && Get(event, "rgAttachments").Hash?
    requires Get(Get(event, "rgAttachments").entries, "attachment") == Hash(a)
    ensures AttachmentNames(Hash(c)) == Ok([Get(a, "sFileName")])
  {
    var names := FileNames([Hash(a)]);
    assert Index([Hash(a)][0], "sFileName") == Ok(Get(a, "sFileName"));
    assert names.Ok? && |names.value| == 1 && names.value[0] == Get(a, "sFileName");
    assert names.value == [Get(a, "sFileName")];
  }

  lemma {:induction false} AttachmentListGivesNamesInOrder(c: map<string, Value>, event: map<string, Value>, xs: seq<map<string, Value>>)
    requires HasEvent(c, event) && Get(event, "rgAttachments").Hash?
    requires Get(Get(event, "rgAttachments").entries, "attachment") == List(seq(|xs|, i requires 0 <= i < |xs| => Hash(xs[i])))
    ensures var r := AttachmentNames(Hash(c));
            r.Ok? && |r.value| == |xs| && forall i :: 0 <= i < |xs| ==> r.value[i] == Get(xs[i], "sFileName")
  {
    var items := seq(|xs|, i requires 0 <= i < |xs| => Hash(xs[i]));
    assert forall i :: 0 <= i < |items| ==> Index(items[i], "sFileName") == Ok(Get(xs[i], "sFileName"));
  }

  /** The attachments list of a command: one entry per attachment of the record,
      in order, nil for those whose file name the case already has. */
  function Uploads(atts: seq<Attachment>, existing: seq<Value>): (r: seq<Option<Upload>>)
    ensures |r| == |atts|
    ensures forall i :: 0 <= i < |atts| ==> (r[i].None? <==> Text(atts[i].fileName) in existing)
    ensures forall i :: 0 <= i < |atts| && r[i].Some? ==>
              r[i].value == Upload(atts[i].fileName, Opened(atts[i].downloadUrl))
  {
    if atts == [] then []
    else
      var head := if Text(atts[0].fileName) in existing then None
                  else Some(Upload(atts[0].fileName, Opened(atts[0].downloadUrl)));
      [head] + Uploads(atts[1..], existing)
  }

  // --------------------------------------------------------- the command

  /** The command issued for a record, given the case that the lookup found (nil for none). */
  function PrepareCommand(env: Env, r: Record, parent: Value, found: Value): (c: Result<Call>)
    ensures found.Nil? ==> c.Ok?
    ensures c.Ok? ==> c.value.CaseCommand?
    ensures c.Ok? ==> (c.value.command == New <==> found.Nil?)
    ensures found.Nil? ==> c.value.parameters == InitialParameters(env, r, parent)
    ensures c.Ok? ==> |c.value.attachments| == |r.attachments|
    ensures found.Nil? ==> c.value.attachments == Uploads(r.attachments, [])
    ensures c.Ok? ==> ("ixBugParent" in c.value.parameters <==> Truthy(parent))
    ensures c.Ok? && Truthy(parent) ==> c.value.parameters["ixBugParent"] == parent
    ensures c.Ok? && !found.Nil? ==>
              EditParameters(found, InitialParameters(env, r, parent)) == Ok(c.value.parameters) &&
              AttachmentNames(found).Ok? && c.value.attachments == Uploads(r.attachments, AttachmentNames(found).value)
  {
    var p := InitialParameters(env, r, parent);
    if found.Nil? then Ok(CaseCommand(New, p, Uploads(r.attachments, [])))
    else
      var edited :- EditParameters(found, p);
      var existing :- AttachmentNames(found);
      Ok(CaseCommand(Edit, edited, Uploads(r.attachments, existing)))
  }

  /** Ruby's interpolation of a value into a string. */
  function Render(env: Env, v: Value): string {
    match v
    case Nil => ""
    case Text(s) => s
    case _ => env.inspect(v)
  }

  /** The integration fields written for a record once its case is known. */
  function Integration(env: Env, r: Record, number: Value): Call {
    CreateIntegrationFields(env.resourceType(r.referenceNum), r.referenceNum, env.serviceName,
                            number, env.fogbugzUrl + "/f/cases/" + Render(env, number))
  }

  // ------------------------------------------------------------ the sync

  /** The number of records in the tree under `r`, `r` included. */
  function Size(r: Record): nat
    decreases r, 1
  {
    1 + SizeFrom(r, 0)
  }

  function SizeFrom(r: Record, i: nat): nat
    decreases r, 0, |r.requirements| - i
  {
    if i >= |r.requirements| then 0 else Size(r.requirements[i]) + SizeFrom(r, i + 1)
  }

  /** The number of records in the trees of a list of requirements. */
  function SizeAll(reqs: seq<Record>): nat {
    if reqs == [] then 0 else Size(reqs[0]) + SizeAll(reqs[1..])
  }

  lemma {:induction false} SizeFromIsSizeAll(r: Record, i: nat)
    requires i <= |r.requirements|
    ensures SizeFrom(r, i) == SizeAll(r.requirements[i..])
    decreases |r.requirements| - i
  {
    if i < |r.requirements| {
      SizeFromIsSizeAll(r, i + 1);
      assert r.requirements[i..][1..] == r.requirements[i + 1..];
    }
  }

  lemma SizeOfRecord(r: Record)
    ensures Size(r) == 1 + SizeAll(r.requirements)
  {
    SizeFromIsSizeAll(r, 0);
    assert r.requirements[0..] == r.requirements;
  }

  /** Create or update the case of `r` and then of every requirement under it. */
  function Sync(env: Env, log: seq<Call>, r: Record, parent: Value): Step<Value>
    decreases Size(r), 1
  {
    var l1 := log + [SearchFor(r.caseNumber)];
    match FoundCase(env.tracker(l1))
    case Err(e) => Step(l1, Err(e))
    case Ok(found) =>
      match PrepareCommand(env, r, parent, found)
      case Err(e) => Step(l1, Err(e))
      case Ok(command) => AfterCommand(env, l1 + [command], r)
  }

  /** What follows the command: read the case from the reply, write the
      integration fields, sync the requirements under the case's number. */
  function AfterCommand(env: Env, l2: seq<Call>, r: Record): Step<Value>
    decreases Size(r), 0
  {
    match Index(env.tracker(l2), "case")
    case Err(e) => Step(l2, Err(e))
    case Ok(fogbugzCase) =>
      match Index(fogbugzCase, "ixBug")
      case Err(e) => Step(l2, Err(e))
      case Ok(number) =>
        var l3 := l2 + [Integration(env, r, number)];
        SizeOfRecord(r);
        var children := SyncAll(env, l3, r.requirements, number);
        Step(children.log, if children.result.Ok? then Ok(fogbugzCase) else Err(children.result.error))
  }

  /** Sync the requirements one after the other; the first failure stops the rest. */
  function SyncAll(env: Env, log: seq<Call>, reqs: seq<Record>, parent: Value): Step<()>
    decreases SizeAll(reqs), 2
  {
    if reqs == [] then Step(log, Ok(()))
    else
      var first := Sync(env, log, reqs[0], parent);
      if first.result.Err? then Step(first.log, Err(first.result.error))
      else SyncAll(env, first.log, reqs[1..], parent)
  }

  // ------------------------------------------------------ sync properties

  /** One step of a list sync from position i: requirement i, then the rest unless it failed. */
  lemma SyncAllStep(env: Env, log: seq<Call>, reqs: seq<Record>, parent: Value, i: nat)
    requires i < |reqs|
    ensures var first := Sync(env, log, reqs[i], parent);
            SyncAll(env, log, reqs[i..], parent) ==
              if first.result.Err? then Step(first.log, Err(first.result.error))
              else SyncAll(env, first.log, reqs[i + 1..], parent)
  {
    assert reqs[i..][0] == reqs[i] && reqs[i..][1..] == reqs[i + 1..];
  }

  lemma {:induction false} SizeAllBound(reqs: seq<Record>, i: nat)
    requires i < |reqs|
    ensures Size(reqs[i]) <= SizeAll(reqs)
    decreases i
  {
    if i > 0 {
      SizeAllBound(reqs[1..], i - 1);
      assert reqs[1..][i - 1] == reqs[i];
    }
  }

  /** A sync only appends to the log. */
  lemma {:induction false} SyncExtendsLog(env: Env, log: seq<Call>, r: Record, parent: Value)
    ensures |Sync(env, log, r, parent).log| > |log|
    ensures Sync(env, log, r, parent).log[..|log|] == log
    decreases Size(r), 1
  {
    var l1 := log + [SearchFor(r.caseNumber)];
    var found := FoundCase(env.tracker(l1));
    if found.Ok? {
      var command := PrepareCommand(env, r, parent, found.value);
      if command.Ok? {
        AfterCommandExtendsLog(env, l1 + [command.value], r);
        assert (l1 + [command.value])[..|log|] == log;
      }
    }
  }

  lemma {:induction false} AfterCommandExtendsLog(env: Env, l2: seq<Call>, r: Record)
    ensures |AfterCommand(env, l2, r).log| >= |l2|
    ensures AfterCommand(env, l2, r).log[..|l2|] == l2
    decreases Size(r), 0
  {
    var fogbugzCase := Index(env.tracker(l2), "case");
    if fogbugzCase.Ok? && Index(fogbugzCase.value, "ixBug").Ok? {
      var number := Index(fogbugzCase.value, "ixBug").value;
      var l3 := l2 + [Integration(env, r, number)];
      SizeOfRecord(r);
      SyncAllExtendsLog(env, l3, r.requirements, number);
      assert l3[..|l2|] == l2;
    }
  }

  lemma {:induction false} SyncAllExtendsLog(env: Env, log: seq<Call>, reqs: seq<Record>, parent: Value)
    ensures |SyncAll(env, log, reqs, parent).log| >= |log|
    ensures SyncAll(env, log, reqs, parent).log[..|log|] == log
    decreases SizeAll(reqs), 2
  {
    if reqs != [] {
      var first := Sync(env, log, reqs[0], parent);
      SyncExtendsLog(env, log, reqs[0], parent);
      if first.result.Ok? {
        SyncAllExtendsLog(env, first.log, reqs[1..], parent);
        assert first.log[..|log|] == log;
      }
    }
  }

  /** A record's sync starts with the search for its case, and a sync that goes
      no further has failed. */
  lemma {:induction false} SyncSearchesFirst(env: Env, log: seq<Call>, r: Record, parent: Value)
    ensures var s := Sync(env, log, r, parent);
      && |s.log| > |log| && s.log[..|log|] == log
      && s.log[|log|] == SearchFor(r.caseNumber)
      && (|s.log| == |log| + 1 ==> s.result.Err?)
  {
    var s := Sync(env, log, r, parent);
    SyncExtendsLog(env, log, r, parent);
    var l1 := log + [SearchFor(r.caseNumber)];
    var found := FoundCase(env.tracker(l1));
    if found.Ok? && PrepareCommand(env, r, parent, found.value).Ok? {
      var l2 := l1 + [PrepareCommand(env, r, parent, found.value).value];
      AfterCommandExtendsLog(env, l2, r);
      assert s.log[|log|] == s.log[..|l2|][|log|];
    }
  }

  /** The second call of a record's sync is the case command built from what
      the search found; everything after it is what follows a command. */
  lemma {:induction false} SyncCommandsSecond(env: Env, log: seq<Call>, r: Record, parent: Value)
    ensures var s := Sync(env, log, r, parent);
      |s.log| > |log| + 1 ==>
        var found := FoundCase(env.tracker(s.log[..|log| + 1]));
        && found.Ok? && PrepareCommand(env, r, parent, found.value) == Ok(s.log[|log| + 1])
        && s == AfterCommand(env, s.log[..|log| + 2], r)
  {
    var s := Sync(env, log, r, parent);
    var l1 := log + [SearchFor(r.caseNumber)];
    var found := FoundCase(env.tracker(l1));
    if found.Ok? && PrepareCommand(env, r, parent, found.value).Ok? {
      var l2 := l1 + [PrepareCommand(env, r, parent, found.value).value];
      AfterCommandExtendsLog(env, l2, r);
      assert s.log[..|log| + 2] == l2;
      assert s.log[..|log| + 1] == l1 by { assert s.log[..|l2|][..|log| + 1] == l1; }
    }
  }

  /** After the command: the integration fields naming the number of the case
      the command returned, and only then the requirements, synced under that
      number. */
  lemma {:induction false} AfterCommandIntegratesFirst(env: Env, l2: seq<Call>, r: Record)
    ensures var a := AfterCommand(env, l2, r);
      |a.log| > |l2| ==>
        var fogbugzCase := Index(env.tracker(l2), "case");
        && fogbugzCase.Ok? && Index(fogbugzCase.value, "ixBug").Ok?
        && var number := Index(fogbugzCase.value, "ixBug").value;
        && a.log[|l2|] == Integration(env, r, number)
        && a.log == SyncAll(env, a.log[..|l2| + 1], r.requirements, number).log
  {
    var a := AfterCommand(env, l2, r);
    var fogbugzCase := Index(env.tracker(l2), "case");
    if fogbugzCase.Ok? && Index(fogbugzCase.value, "ixBug").Ok? {
      var number := Index(fogbugzCase.value, "ixBug").value;
      var l3 := l2 + [Integration(env, r, number)];
      SizeOfRecord(r);
      var children := SyncAll(env, l3, r.requirements, number);
      assert a.log == children.log;
      SyncAllExtendsLog(env, l3, r.requirements, number);
      assert a.log[|l2|] == l3[|l2|];
      assert a.log[..|l2| + 1] == l3;
    }
  }

  /** A sync that succeeds returns the case that its command returned. */
  lemma AfterCommandReturnsCase(env: Env, l2: seq<Call>, r: Record)
    ensures var a := AfterCommand(env, l2, r);
      a.result.Ok? ==> Ok(a.result.value) == Index(env.tracker(l2), "case")
  {
  }

  /** The number of case commands in a log. */
  function Commands(calls: seq<Call>): nat {
    if calls == [] then 0
    else Commands(calls[..|calls| - 1]) + (if calls[|calls| - 1].CaseCommand? then 1 else 0)
  }

  /** The number of integration-field writes in a log. */
  function Writes(calls: seq<Call>): nat {
    if calls == [] then 0
    else Writes(calls[..|calls| - 1]) + (if calls[|calls| - 1].CreateIntegrationFields? then 1 else 0)
  }

  /** A successful sync issues one case command and writes the integration
      fields once for every record of the tree, creating or editing alike. */
  lemma {:induction false} SyncCounts(env: Env, log: seq<Call>, r: Record, parent: Value)
    requires Sync(env, log, r, parent).result.Ok?
    ensures Commands(Sync(env, log, r, parent).log) == Commands(log) + Size(r)
    ensures Writes(Sync(env, log, r, parent).log) == Writes(log) + Size(r)
    decreases Size(r), 1
  {
    var l1 := log + [SearchFor(r.caseNumber)];
    var found := FoundCase(env.tracker(l1)).value;
    var command := PrepareCommand(env, r, parent, found).value;
    var l2 := l1 + [command];
    var number := Index(Index(env.tracker(l2), "case").value, "ixBug").value;
    var l3 := l2 + [Integration(env, r, number)];
    assert l1[..|l1| - 1] == log && l2[..|l2| - 1] == l1 && l3[..|l3| - 1] == l2;
    assert Commands(l1) == Commands(log) && Writes(l1) == Writes(log);
    assert Commands(l2) == Commands(log) + 1 && Writes(l2) == Writes(log);
    assert Commands(l3) == Commands(log) + 1 && Writes(l3) == Writes(log) + 1;
    SizeOfRecord(r);
    SyncAllCounts(env, l3, r.requirements, number);
  }

  lemma {:induction false} SyncAllCounts(env: Env, log: seq<Call>, reqs: seq<Record>, parent: Value)
    requires SyncAll(env, log, reqs, parent).result.Ok?
    ensures Commands(SyncAll(env, log, reqs, parent).log) == Commands(log) + SizeAll(reqs)
    ensures Writes(SyncAll(env, log, reqs, parent).log) == Writes(log) + SizeAll(reqs)
    decreases SizeAll(reqs), 2
  {
    if reqs != [] {
      var first := Sync(env, log, reqs[0], parent);
      SyncCounts(env, log, reqs[0], parent);
      SyncAllCounts(env, first.log, reqs[1..], parent);
    }
  }

  /** Syncing the first i requirements and then the rest is syncing them all. */
  lemma {:induction false} SyncAllSplit(env: Env, log: seq<Call>, reqs: seq<Record>, parent: Value, i: nat)
    requires i <= |reqs|
    ensures var pre := SyncAll(env, log, reqs[..i], parent);
            SyncAll(env, log, reqs, parent) ==
              if pre.result.Err? then pre else SyncAll(env, pre.log, reqs[i..], parent)
    decreases i
  {
    if i > 0 {
      var first := Sync(env, log, reqs[0], parent);
      assert reqs[..i][0] == reqs[0] && reqs[..i][1..] == reqs[1..][..i - 1];
      if first.result.Ok? {
        SyncAllSplit(env, first.log, reqs[1..], parent, i - 1);
        assert reqs[1..][i - 1..] == reqs[i..];
      }
    } else {
      assert reqs[i..] == reqs;
    }
  }

  /** Every requirement's case command, issued after the earlier requirements
      have been synced, carries the parent's case number as `ixBugParent`. */
  lemma {:induction false} RequirementLinkedToParent(env: Env, log: seq<Call>, reqs: seq<Record>, parent: Value, i: nat)
    requires i < |reqs| && Truthy(parent)
    requires SyncAll(env, log, reqs[..i], parent).result.Ok?
    ensures var pre := SyncAll(env, log, reqs[..i], parent).log;
            var s := SyncAll(env, log, reqs, parent).log;
            && |s| > |pre| && s[..|pre|] == pre && s[|pre|] == SearchFor(reqs[i].caseNumber)
            && (|s| > |pre| + 1 ==>
                  && s[|pre| + 1].CaseCommand? && "ixBugParent" in s[|pre| + 1].parameters
                  && s[|pre| + 1].parameters["ixBugParent"] == parent)
  {
    var pre := SyncAll(env, log, reqs[..i], parent).log;
    SyncAllSplit(env, log, reqs, parent, i);
    assert reqs[i..][0] == reqs[i] && reqs[i..][1..] == reqs[i + 1..];
    var child := Sync(env, pre, reqs[i], parent);
    SyncExtendsLog(env, pre, reqs[i], parent);
    SyncSearchesFirst(env, pre, reqs[i], parent);
    SyncCommandsSecond(env, pre, reqs[i], parent);
    var s := SyncAll(env, log, reqs, parent).log;
    if child.result.Ok? {
      SyncAllExtendsLog(env, child.log, reqs[i + 1..], parent);
      assert s[..|child.log|] == child.log;
      assert s[..|pre|] == pre by { assert s[..|child.log|][..|pre|] == pre; }
    }
    if |s| > |pre| + 1 {
      assert |child.log| > |pre| + 1;
      var found := FoundCase(env.tracker(child.log[..|pre| + 1]));
      assert PrepareCommand(env, reqs[i], parent, found.value) == Ok(child.log[|pre| + 1]);
    }
  }

  /** Syncing a record whose case already carries its title and body sends
      an edit holding only the tags, the project, the parent link and the
      case's own number. */
  lemma UnchangedRecordEditsOnlyIdentity(env: Env, r: Record, parent: Value, c: map<string, Value>)
    requires Get(c, "sTitle") == Text(r.name)
    requires Get(c, "sLatestTextSummary") == Text(env.sanitize(r.body))
    requires AttachmentNames(Hash(c)).Ok?
    ensures var command := PrepareCommand(env, r, parent, Hash(c));
            && command.Ok? && command.value.command == Edit
            && command.value.parameters.Keys ==
                 {"sTags", "ixProject", "ixBug"} + (if Truthy(parent) then {"ixBugParent"} else {})
            && command.value.parameters["ixBug"] == Get(c, "ixBug")
  {
    var p := InitialParameters(env, r, parent);
    var edited := EditParameters(Hash(c), p).value;
    assert edited.Keys == {"sTags", "ixProject", "ixBug"} + (if Truthy(parent) then {"ixBugParent"} else {});
  }

  // ------------------------------------------------------------- webhook

  /** The body of the workflow-status update. */
  function StatusPayload(resourceType: string, category: Option<string>): Value {
    var c := match category case Some(name) => Text(name) case None => Nil;
    Hash(map[resourceType := Hash(map["workflow_status" := Hash(map["category" := c])])])
  }

  /** Inbound status change: look the case up, find the Aha! resource linked to
      its number, and overwrite that resource's workflow category. */
  function Webhook(env: Env, log: seq<Call>, caseNumber: Option<string>): (s: Step<()>)
    ensures |log| < |s.log| <= |log| + 3 && s.log[..|log|] == log
    ensures s.log[|log|] == SearchFor(caseNumber)
    ensures |s.log| == |log| + 1 <==> s.result.Err?
    ensures FoundCase(env.tracker(s.log[..|log| + 1])) == Ok(Nil) ==> s.result == Err(NoMethodError)
    ensures |s.log| > |log| + 1 ==>
      var fogbugzCase := FoundCase(env.tracker(s.log[..|log| + 1]));
      && fogbugzCase.Ok? && Index(fogbugzCase.value, "ixBug").Ok?
      && s.log[|log| + 1] == SearchIntegrationFields(env.integrationId, "number", Index(fogbugzCase.value, "ixBug").value)
    ensures |s.log| > |log| + 1 ==>
      var lookup := env.integrations(s.log[..|log| + 2]);
      |s.log| == |log| + 3 <==> lookup.Found? && (lookup.feature.Some? || lookup.requirement.Some?)
    ensures |s.log| == |log| + 3 ==>
      var fogbugzCase := FoundCase(env.tracker(s.log[..|log| + 1])).value;
      var lookup := env.integrations(s.log[..|log| + 2]);
      var resource := if lookup.feature.Some? then lookup.feature.value else lookup.requirement.value;
      var resourceType := if lookup.feature.Some? then "feature" else "requirement";
      s.log[|log| + 2] == Put(resource.resource, StatusPayload(resourceType, CategoryAsWritten(Index(fogbugzCase, "sStatus").value)))
  {
    var l1 := log + [SearchFor(caseNumber)];
    assert l1[..|log|] == log && l1[..|log| + 1] == l1;
    match FoundCase(env.tracker(l1))
    case Err(e) => Step(l1, Err(e))
    case Ok(fogbugzCase) =>
      match Index(fogbugzCase, "ixBug")
      case Err(e) => Step(l1, Err(e))
      case Ok(number) =>
        var l2 := l1 + [SearchIntegrationFields(env.integrationId, "number", number)];
        assert l2[..|log|] == log && l2[..|log| + 1] == l1 && l2[..|log| + 2] == l2;
        assert forall c :: (l2 + [c])[..|log|] == log && (l2 + [c])[..|log| + 1] == l1 && (l2 + [c])[..|log| + 2] == l2;
        var status := Index(fogbugzCase, "sStatus").value;
        match env.integrations(l2)
        case NotFound => Step(l2, Ok(()))
        case Found(feature, requirement) =>
          if feature.Some? then
            Step(l2 + [Put(feature.value.resource, StatusPayload("feature", CategoryAsWritten(status)))], Ok(()))
          else if requirement.Some? then
            Step(l2 + [Put(requirement.value.resource, StatusPayload("requirement", CategoryAsWritten(status)))], Ok(()))
          else Step(l2, Ok(()))
  }
}
