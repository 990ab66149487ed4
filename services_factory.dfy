/** `ServiceFactory`: the class-level registry from service names to adapter
    classes, and the construction of adapter instances from it. An adapter
    class is identified by its class name. */
module ServicesFactory {
  import opened Common
  import opened Strings
  import opened ServicesBase

  /** The text of the `ServiceError` raised for an unregistered name. */
  function NotAvailableMessage(name: string, available: seq<string>): (r: string)
    ensures StartsWith(r, "Service '" + name + "' not available. Available: ")
  {
    var head := "Service '" + name + "' not available. Available: ";
    var r := head + Join(available, ", ");
    assert r[..|head|] == head;
    r
  }

  /** Every registered name occurs in the text, so the user sees what is available. */
  lemma {:induction false} NotAvailableListsNames(name: string, available: seq<string>, i: nat)
    requires i < |available|
    ensures Contains(NotAvailableMessage(name, available), available[i])
  {
    var head := "Service '" + name + "' not available. Available: ";
    JoinContainsPart(available, ", ", i);
    ContainsAppend(head, Join(available, ", "), available[i]);
  }

  lemma {:induction false} JoinContainsPart(parts: seq<string>, sep: string, i: nat)
    requires i < |parts|
    ensures Contains(Join(parts, sep), parts[i])
    decreases |parts|
  {
    if |parts| == 1 {
      ContainsAt(parts[0], parts[0], 0);
    } else if i == 0 {
      var j := Join(parts, sep);
      assert j == parts[0] + (sep + Join(parts[1..], sep));
      assert j[0..|parts[0]|] == parts[0];
      ContainsAt(j, parts[0], 0);
    } else {
      JoinContainsPart(parts[1..], sep, i - 1);
      assert parts[1..][i - 1] == parts[i];
      ContainsAppend(parts[0] + sep, Join(parts[1..], sep), parts[i]);
      assert Join(parts, sep) == (parts[0] + sep) + Join(parts[1..], sep);
    }
  }

  /** The error `create_service` and `create_service_with_token` raise for an
      unregistered name. */
  function NotAvailable(name: string, available: seq<string>): (e: ServiceError)
    ensures e.kind == PlainServiceError && e.serviceName == name
    ensures e.message == NotAvailableMessage(name, available)
  {
    ServiceError(PlainServiceError, NotAvailableMessage(name, available), name)
  }

  /** The registry `ServiceFactory._services`: its keys in insertion order and
      the class registered under each. */
  class ServiceFactory {
    var keys: seq<string>
    var classes: map<string, string>

    ghost predicate Valid()
      reads this
    {
      (forall p, q :: 0 <= p < q < |keys| ==> keys[p] != keys[q]) &&
      classes.Keys == set k | k in keys
    }

    /** The registry as the module defines it. */
    constructor ()
      ensures Valid()
      ensures keys == ["google", "folderfort"]
      ensures classes == map["google" := "GoogleDriveService", "folderfort" := "FolderfortService"]
    {
      keys := ["google", "folderfort"];
      classes := map["google" := "GoogleDriveService", "folderfort" := "FolderfortService"];
    }

    /** `register_service`: adds or overwrites exactly the entry `name`; a new
        name goes to the end of the key order, an existing one keeps its place. */
    method RegisterService(name: string, serviceClass: string)
      requires Valid()
      modifies this
      ensures Valid()
      ensures classes == old(classes)[name := serviceClass]
      ensures forall k :: k in old(classes) && k != name ==> k in classes && classes[k] == old(classes)[k]
      ensures name in old(classes) ==> keys == old(keys)
      ensures name !in old(classes) ==> keys == old(keys) + [name]
    {
      if name !in classes {
        keys := keys + [name];
      }
      classes := classes[name := serviceClass];
    }

    /** `get_available_services`: the registered names in insertion order. */
    method GetAvailableServices() returns (r: seq<string>)
      requires Valid()
      ensures forall k :: k in r <==> k in classes
      ensures |r| == |classes| && r == keys
    {
      r := keys;
      DistinctCard(keys);
    }

    /** `is_service_available`. */
    method IsServiceAvailable(name: string) returns (b: bool)
      requires Valid()
      ensures b <==> name in classes
      ensures b <==> name in keys
    {
      b := name in classes;
    }

    /** `create_service(name, auto_authenticate=False)`: an instance of the
        registered class without a token, so it is never authenticated. */
    method CreateService(name: string) returns (r: Result<CloudService, ServiceError>)
      requires Valid()
      ensures name !in classes ==> r == Err(NotAvailable(name, keys))
      ensures name in classes ==> r.Ok? && r.value == NewCloudService(classes[name], None)
      ensures r.Ok? ==> !r.value.IsAuthenticated()
    {
      if name !in classes {
        r := Err(NotAvailable(name, keys));
      } else {
        r := Ok(NewCloudService(classes[name], None));
      }
    }

    /** `create_service_with_token`: the given token is passed through unchanged. */
    method CreateServiceWithToken(name: string, accessToken: string) returns (r: Result<CloudService, ServiceError>)
      requires Valid()
      ensures name !in classes ==> r == Err(NotAvailable(name, keys))
      ensures name in classes ==> r == Ok(NewCloudService(classes[name], Some(accessToken)))
      ensures r.Ok? ==> r.value.accessToken == Some(accessToken) && r.value.IsAuthenticated()
    {
      if name !in classes {
        r := Err(NotAvailable(name, keys));
      } else {
        r := Ok(NewCloudService(classes[name], Some(accessToken)));
      }
    }
  }
}
