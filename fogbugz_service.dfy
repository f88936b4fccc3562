/** The FogBugz service object. Its methods issue the calls of the service in
    the order the service issues them and record them in `log`; each method is
    proved to leave exactly the log, and return exactly the value, that the
    functions of module Fogbugz prescribe. */
module FogbugzService {
  import opened RubyValues
  import opened Fogbugz

  class Service {
    const env: Env
    var log: seq<Call>

    constructor (env: Env)
      ensures this.env == env && log == []
    {
      this.env := env;
      log := [];
    }

    /** One search command; the case is what the reply holds under `cases` and `case`. */
    method FetchCase(caseNumber: Option<string>) returns (r: Result<Value>)
      modifies this
      ensures log == old(log) + [SearchFor(caseNumber)]
      ensures r == FoundCase(env.tracker(log))
    {
      log := log + [SearchFor(caseNumber)];
      r := FoundCase(env.tracker(log));
    }

    /** The edit diff, applied to the parameters one change at a time. */
    method SetEditParameters(fogbugzCase: Value, parameters: Params) returns (r: Result<Params>)
      ensures r == EditParameters(fogbugzCase, parameters)
    {
      var p := parameters;
      var title :- Index(fogbugzCase, "sTitle");
      if title == Get(p, "sTitle") {
        p := p - {"sTitle"};
      }
      if Index(fogbugzCase, "sLatestTextSummary").value == Get(p, "sEvent") {
        p := p - {"sEvent"};
      }
      p := p["ixBug" := Index(fogbugzCase, "ixBug").value];
      r := Ok(p);
    }

    /** Write the record's integration fields: the case number and the case's URL. */
    method IntegrateResourceWithCase(feature: Record, fogbugzCase: Value) returns (r: Result<()>)
      modifies this
      ensures Index(fogbugzCase, "ixBug").Err? ==> r == Err(Index(fogbugzCase, "ixBug").error) && log == old(log)
      ensures Index(fogbugzCase, "ixBug").Ok? ==>
                r.Ok? && log == old(log) + [Integration(env, feature, Index(fogbugzCase, "ixBug").value)]
    {
      var number :- Index(fogbugzCase, "ixBug");
      log := log + [Integration(env, feature, number)];
      r := Ok(());
    }

    /** Create the case of `feature` or edit it, then do the same for every
        requirement under it, linked to the case's number. */
    method CreateOrUpdateCase(feature: Record, parentCase: Value) returns (r: Result<Value>)
      modifies this
      ensures Step(log, r) == Sync(env, old(log), feature, parentCase)
      decreases Size(feature), 1
    {
      var oldAttachments: seq<Value> := [];
      var parameters: Params := map[
        "sTitle" := Text(feature.name),
        "sEvent" := Text(env.sanitize(feature.body)),
        "sTags" := feature.tags,
        "ixProject" := Text(env.projects)];
      if Truthy(parentCase) {
        parameters := parameters["ixBugParent" := parentCase];
      }
      assert parameters == InitialParameters(env, feature, parentCase);

      var command := New;
      var fogbugzCase :- FetchCase(feature.caseNumber);
      ghost var l1 := log;
      if Truthy(fogbugzCase) {
        command := Edit;
        parameters :- SetEditParameters(fogbugzCase, parameters);
        oldAttachments :- AttachmentNames(fogbugzCase);
      }
      var attachments := Uploads(feature.attachments, oldAttachments);
      log := log + [CaseCommand(command, parameters, attachments)];
      assert PrepareCommand(env, feature, parentCase, FoundCase(env.tracker(l1)).value) == Ok(log[|log| - 1]);

      fogbugzCase :- Index(env.tracker(log), "case");
      var integrated :- IntegrateResourceWithCase(feature, fogbugzCase);
      var number := Index(fogbugzCase, "ixBug").value;

      SizeOfRecord(feature);
      var synced :- SyncRequirements(feature.requirements, number);
      r := Ok(fogbugzCase);
    }

    /** Sync the requirements of a record in order, each under the record's case;
        the first failure ends the sync. */
    method SyncRequirements(requirements: seq<Record>, number: Value) returns (r: Result<()>)
      modifies this
      ensures Step(log, r) == SyncAll(env, old(log), requirements, number)
      decreases SizeAll(requirements), 2
    {
      var i := 0;
      while i < |requirements|
        invariant 0 <= i <= |requirements|
        invariant SyncAll(env, old(log), requirements, number) == SyncAll(env, log, requirements[i..], number)
      {
        SizeAllBound(requirements, i);
        SyncAllStep(env, log, requirements, number, i);
        var child := CreateOrUpdateCase(requirements[i], number);
        if child.Err? {
          return Err(child.error);
        }
        i := i + 1;
      }
      r := Ok(());
    }

    /** Look up the Aha! resource linked to a case through its number. */
    method FindResourceWithCase(fogbugzCase: Value) returns (r: Result<Lookup>)
      modifies this
      ensures Index(fogbugzCase, "ixBug").Err? ==> r == Err(Index(fogbugzCase, "ixBug").error) && log == old(log)
      ensures Index(fogbugzCase, "ixBug").Ok? ==>
                && log == old(log) + [SearchIntegrationFields(env.integrationId, "number", Index(fogbugzCase, "ixBug").value)]
                && r == Ok(env.integrations(log))
    {
      var number :- Index(fogbugzCase, "ixBug");
      log := log + [SearchIntegrationFields(env.integrationId, "number", number)];
      r := Ok(env.integrations(log));
    }

    /** Overwrite the workflow category of a resource with the one mapped from a status. */
    method UpdateResource(resource: string, resourceType: string, newState: Value)
      modifies this
      ensures log == old(log) + [Put(resource, StatusPayload(resourceType, CategoryAsWritten(newState)))]
    {
      log := log + [Put(resource, StatusPayload(resourceType, CategoryAsWritten(newState)))];
    }

    /** A status change reported by FogBugz. */
    method ReceiveWebhook(caseNumber: Option<string>) returns (r: Result<()>)
      modifies this
      ensures Step(log, r) == Webhook(env, old(log), caseNumber)
    {
      var fogbugzCase :- FetchCase(caseNumber);
      var result :- FindResourceWithCase(fogbugzCase);
      if result.NotFound? {
        return Ok(());  // cases without an Aha! record are ignored
      }
      var resource: Resource;
      var resourceType: string;
      if result.feature.Some? {
        resource, resourceType := result.feature.value, "feature";
      } else if result.requirement.Some? {
        resource, resourceType := result.requirement.value, "requirement";
      } else {
        return Ok(());  // an unhandled resource type is only logged
      }
      UpdateResource(resource.resource, resourceType, Index(fogbugzCase, "sStatus").value);
      r := Ok(());
    }
  }
}
