/** Setting up the destination container before the first upload: the sink
    asks the storage service to create it and treats "it already exists" as
    success; every other failure of the create call is raised to the caller. */
module Container {
  import opened Results

  const ContainerNameKey: string := "container_name"
  const DefaultContainerName: string := "default-container"

  /** The container named in the configuration, or the default one when the
      configuration does not name any. */
  function ContainerName(config: map<string, string>): string {
    if ContainerNameKey in config then config[ContainerNameKey] else DefaultContainerName
  }

  /** Why the service refused to create a container. */
  datatype CreateError = ResourceExists | ServiceFailure(reason: string)

  /** The service's create call on an account that holds the containers
      `existing`. Failures unrelated to the name (permission, authentication,
      network) are not modelled; they arrive as `failure`. */
  function CreateContainer(existing: set<string>, name: string, failure: Option<string>): (r: Result<set<string>, CreateError>)
    ensures r.Ok? <==> failure.None? && name !in existing
    ensures r.Ok? ==> r.value == existing + {name}
  {
    if failure.Some? then Err(ServiceFailure(failure.value))
    else if name in existing then Err(ResourceExists)
    else Ok(existing + {name})
  }

  /** ensure_container: create the container and swallow only ResourceExists.
      It succeeds exactly when the service reported no other failure, and then
      the container exists and no other container was added; otherwise the
      service's failure is what the caller sees. */
  function EnsureContainer(existing: set<string>, name: string, failure: Option<string>): (r: Result<set<string>, string>)
    ensures r.Ok? <==> failure.None?
    ensures r.Ok? ==> r.value == existing + {name}
    ensures r.Err? ==> r.error == failure.value
  {
    match CreateContainer(existing, name, failure)
    case Ok(account) => Ok(account)
    case Err(ResourceExists) => Ok(existing)
    case Err(ServiceFailure(reason)) => Err(reason)
  }

  /** The setup step as the sink runs it: ensure the container the
      configuration names, or `default-container` when it names none. With no
      service failure, exactly that container is added to the account (or was
      already there); otherwise the failure reaches the caller. */
  function SetupContainer(existing: set<string>, config: map<string, string>, failure: Option<string>): (r: Result<set<string>, string>)
    ensures r.Ok? <==> failure.None?
    ensures r.Ok? && ContainerNameKey in config ==> r.value == existing + {config[ContainerNameKey]}
    ensures r.Ok? && ContainerNameKey !in config ==> r.value == existing + {DefaultContainerName}
    ensures r.Err? ==> r.error == failure.value
  {
    EnsureContainer(existing, ContainerName(config), failure)
  }

  /** Ensuring a container a second time succeeds and changes nothing. */
  lemma EnsureContainerIdempotent(existing: set<string>, name: string)
    ensures EnsureContainer(existing, name, None).Ok?
    ensures var once := EnsureContainer(existing, name, None).value;
      EnsureContainer(once, name, None) == Ok(once)
  {
  }
}
