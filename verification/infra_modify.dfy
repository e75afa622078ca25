/** The `infra_modify` tool (src/tools/infra-modify.ts): a two-step change
    to the host inventory. A proposal is validated and remembered as the
    single pending change, without touching the database; `confirm` applies
    the pending change and `cancel` discards it. */
module InfraModify {
  import opened Wrappers
  import opened JsText
  import opened OrderedMap
  import opened Infra

  datatype ChangeAction = Add | Update | Remove

  /** `{ action, name, data? }` */
  datatype PendingChange = PendingChange(action: ChangeAction, name: string, data: Option<Host>)

  /** Additions and updates carry their host data. */
  predicate WellFormed(p: PendingChange) {
    p.action != Remove ==> p.data.Some?
  }

  const NO_PENDING: string := "No pending change to confirm."
  const CANCELLED: string := "Change cancelled."
  const NAME_REQUIRED: string := "Error: \"name\" is required for add/update/remove."
  const ADD_DATA_REQUIRED: string := "Error: \"data\" with at least a \"host\" field is required when adding a host."
  const UPDATE_DATA_REQUIRED: string := "Error: \"data\" is required for update."

  function AlreadyExists(name: string): string {
    "Error: Host '" + name + "' already exists. Use action \"update\" instead."
  }

  function UpdateNotFound(name: string): string {
    "Error: Host '" + name + "' not found. Use action \"add\" instead."
  }

  function RemoveNotFound(name: string): string {
    "Error: Host '" + name + "' not found in the database."
  }

  function UnknownAction(action: string): string {
    "Error: Unknown action \"" + action + "\". Use one of: add, update, remove, confirm, cancel."
  }

  function Verb(a: ChangeAction): string {
    match a
    case Add => "added"
    case Update => "updated"
    case Remove => "removed"
  }

  function Succeeded(p: PendingChange): string {
    "✅ Host '" + p.name + "' " + Verb(p.action) + " successfully."
  }

  function Failed(message: string): string {
    "❌ Failed: " + message
  }

  /** The checks of a proposal, in the source's order; the accepted change,
      or the error text. */
  function Validate(action: string, name: Option<string>, data: Option<Host>, hosts: seq<(string, HostEntry)>): (r: Result<PendingChange>)
    ensures r.Ok? ==> WellFormed(r.value) && Truthy(name) && r.value.name == name.value
  {
    if !Truthy(name) then Fail(NAME_REQUIRED)
    else
      var n := name.value;
      if action == "add" then
        if !(data.Some? && data.value.host != []) then Fail(ADD_DATA_REQUIRED)
        else if Get(hosts, n).Some? then Fail(AlreadyExists(n))
        else Ok(PendingChange(Add, n, data))
      else if action == "update" then
        if Get(hosts, n).None? then Fail(UpdateNotFound(n))
        else if data.None? then Fail(UPDATE_DATA_REQUIRED)
        else Ok(PendingChange(Update, n, data))
      else if action == "remove" then
        if Get(hosts, n).None? then Fail(RemoveNotFound(n))
        else Ok(PendingChange(Remove, n, None))
      else Fail(UnknownAction(action))
  }

  const CONFIRM_REQUEST: string :=
    "Ask the user to confirm this change. If they agree, call infra_modify with action \"confirm\". If they decline, call with action \"cancel\"."

  /** The reply to an accepted proposal: the preview in a YAML code block and
      the request to confirm or cancel. */
  function ProposalReply(preview: string): string {
    "Proposed change:\n\n```yaml\n" + preview +
    "```\n\n" + CONFIRM_REQUEST
  }

  /** What confirming `p` does to the database and the files, when writing
      or deleting the file fails with `ioError` (`None`: it succeeds). */
  function Apply(p: PendingChange, s: Store, dir: string, ioError: Option<string>): Result<Store>
    requires WellFormed(p)
  {
    match p.action
    case Add => Committed(Ok(Added(s, dir, p.name, p.data.value)), true, ioError)
    case Update => Committed(Updated(s, p.name, p.data.value), true, ioError)
    case Remove => Committed(Removed(s, dir, p.name), RemoveTouchesDisk(s, dir, p.name), ioError)
  }

  /** A proposal is accepted exactly when it names a host and is an addition
      of a new name with a host address, an update of a known name with data,
      or a removal of a known name; the accepted change is that one. */
  lemma ValidateAccepts(action: string, name: Option<string>, data: Option<Host>, hosts: seq<(string, HostEntry)>)
    ensures Validate(action, name, data, hosts).Ok? <==>
      Truthy(name) &&
      ((action == "add" && data.Some? && data.value.host != [] && name.value !in Keys(hosts)) ||
       (action == "update" && name.value in Keys(hosts) && data.Some?) ||
       (action == "remove" && name.value in Keys(hosts)))
    ensures Validate(action, name, data, hosts).Ok? ==>
      var p := Validate(action, name, data, hosts).value;
      WellFormed(p) && p.name == name.value &&
      p.action == (if action == "add" then Add else if action == "update" then Update else Remove) &&
      p.data == (if action == "remove" then None else data)
  {
  }

  /** Which error a rejected proposal reports: a missing name first, then for
      an addition missing host data before an existing name, for an update an
      unknown name before missing data, and for a removal an unknown name. */
  lemma ValidateRejects(action: string, name: Option<string>, data: Option<Host>, hosts: seq<(string, HostEntry)>)
    ensures !Truthy(name) ==> Validate(action, name, data, hosts) == Fail(NAME_REQUIRED)
    ensures Truthy(name) && action == "add" && (data.None? || data.value.host == []) ==>
      Validate(action, name, data, hosts) == Fail(ADD_DATA_REQUIRED)
    ensures Truthy(name) && action == "add" && data.Some? && data.value.host != [] && name.value in Keys(hosts) ==>
      Validate(action, name, data, hosts) == Fail(AlreadyExists(name.value))
    ensures Truthy(name) && action == "update" && name.value !in Keys(hosts) ==>
      Validate(action, name, data, hosts) == Fail(UpdateNotFound(name.value))
    ensures Truthy(name) && action == "update" && name.value in Keys(hosts) && data.None? ==>
      Validate(action, name, data, hosts) == Fail(UPDATE_DATA_REQUIRED)
    ensures Truthy(name) && action == "remove" && name.value !in Keys(hosts) ==>
      Validate(action, name, data, hosts) == Fail(RemoveNotFound(name.value))
    ensures Truthy(name) && action !in {"add", "update", "remove"} ==>
      Validate(action, name, data, hosts) == Fail(UnknownAction(action))
  {
  }

  /** A change accepted against the current database applies cleanly when
      confirmed against that same database and the file system succeeds; an
      addition or update then fails only with the file system's error. */
  lemma AcceptedApplies(action: string, name: Option<string>, data: Option<Host>, s: Store, dir: string, ioError: Option<string>)
    requires Validate(action, name, data, s.hosts).Ok?
    ensures WellFormed(Validate(action, name, data, s.hosts).value)
    ensures Apply(Validate(action, name, data, s.hosts).value, s, dir, None).Ok?
    ensures action != "remove" && ioError.Some? ==>
      Apply(Validate(action, name, data, s.hosts).value, s, dir, ioError) == Fail(ioError.value)
  {
    var p := Validate(action, name, data, s.hosts).value;
    if p.action == Update {
      UpdatedSpec(s, p.name, p.data.value, p.name);
    } else if p.action == Remove {
      RemovedSpec(s, dir, p.name, p.name);
    }
  }

  /** The tool's state: the shared database and files, and the pending
      change. */
  class InfraModifyTool {
    const db: InfraDatabase
    const disk: Disk
    var pending: Option<PendingChange>

    predicate Valid()
      reads this, db
    {
      db.Valid() && (pending.Some? ==> WellFormed(pending.value))
    }

    constructor(db: InfraDatabase, disk: Disk)
      requires db.Valid()
      ensures this.db == db && this.disk == disk && pending == None && Valid()
    {
      this.db := db;
      this.disk := disk;
      pending := None;
    }

    /** `action === 'confirm'`: apply and clear the pending change; a thrown
        error, from the database or from the file system (`ioError`), is
        reported and changes nothing. */
    method Confirm(ioError: Option<string>) returns (reply: string)
      requires Valid()
      modifies this, db, disk
      ensures Valid() && pending == None
      ensures old(pending).None? ==>
        reply == NO_PENDING && db.hosts == old(db.hosts) && disk.files == old(disk.files)
      ensures old(pending).Some? ==>
        var a := Apply(old(pending).value, old(Store(db.hosts, disk.files)), disk.dir, ioError);
        if a.Ok? then reply == Succeeded(old(pending).value) && Store(db.hosts, disk.files) == a.value
        else reply == Failed(a.message) && db.hosts == old(db.hosts) && disk.files == old(disk.files)
    {
      if pending.None? {
        return NO_PENDING;
      }
      var p := pending.value;
      var r: Result<()>;
      match p.action {
        case Add =>
          r := db.AddHost(disk, p.name, p.data.value, ioError);
        case Update =>
          r := db.UpdateHost(disk, p.name, p.data.value, ioError);
        case Remove =>
          r := db.RemoveHost(disk, p.name, ioError);
      }
      pending := None;
      if r.Ok? {
        reply := Succeeded(p);
      } else {
        reply := Failed(r.message);
      }
    }

    /** `action === 'cancel'`: the pending change, if any, is dropped. */
    method Cancel() returns (reply: string)
      requires Valid()
      modifies this
      ensures Valid() && pending == None && reply == CANCELLED
    {
      pending := None;
      reply := CANCELLED;
    }

    /** Any other action: validate, and on success remember the change and
      reply with its preview; the database and files are not touched.
      `stringify` stands for the YAML serialiser. */
    method Propose(action: string, name: Option<string>, data: Option<Host>, stringify: (string, Option<Host>) -> string)
      returns (reply: string)
      requires Valid()
      modifies this
      ensures Valid()
      ensures old(Validate(action, name, data, db.hosts)).Ok? ==>
        pending == Some(old(Validate(action, name, data, db.hosts)).value) &&
        reply == ProposalReply(PreviewYaml(action, name.value, data, stringify))
      ensures old(Validate(action, name, data, db.hosts)).Fail? ==>
        pending == old(pending) && reply == old(Validate(action, name, data, db.hosts)).message
    {
      var v := Validate(action, name, data, db.hosts);
      if v.Ok? {
        pending := Some(v.value);
        assert db.Valid();
        reply := ProposalReply(PreviewYaml(action, name.value, data, stringify));
      } else {
        reply := v.message;
      }
    }

    /** `execute({ action, name, data })` */
    method Execute(action: string, name: Option<string>, data: Option<Host>, stringify: (string, Option<Host>) -> string,
                   ioError: Option<string>)
      returns (reply: string)
      requires Valid()
      modifies this, db, disk
      ensures Valid()
      ensures action == "cancel" ==> pending == None && reply == CANCELLED && db.hosts == old(db.hosts) && disk.files == old(disk.files)
      ensures action != "confirm" ==> db.hosts == old(db.hosts) && disk.files == old(disk.files)
      ensures action != "confirm" && action != "cancel" && old(Validate(action, name, data, db.hosts)).Ok? ==>
        pending == Some(old(Validate(action, name, data, db.hosts)).value) &&
        reply == ProposalReply(PreviewYaml(action, name.value, data, stringify))
      ensures action != "confirm" && action != "cancel" && old(Validate(action, name, data, db.hosts)).Fail? ==>
        pending == old(pending) && reply == old(Validate(action, name, data, db.hosts)).message
      ensures action == "confirm" ==> pending == None
      ensures action == "confirm" && old(pending).None? ==>
        reply == NO_PENDING && db.hosts == old(db.hosts) && disk.files == old(disk.files)
      ensures action == "confirm" && old(pending).Some? ==>
        var a := Apply(old(pending).value, old(Store(db.hosts, disk.files)), disk.dir, ioError);
        if a.Ok? then reply == Succeeded(old(pending).value) && Store(db.hosts, disk.files) == a.value
        else reply == Failed(a.message) && db.hosts == old(db.hosts) && disk.files == old(disk.files)
    {
      if action == "confirm" {
        reply := Confirm(ioError);
      } else if action == "cancel" {
        reply := Cancel();
      } else {
        reply := Propose(action, name, data, stringify);
      }
    }
  }
}
