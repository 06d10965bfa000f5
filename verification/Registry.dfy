/** The registry document: instance names, consistency, the edits of `add`, `edit` and `rm`,
    and what holds of every document those edits can produce. */
module Registry {
  import opened Text
  import opened Numbers
  import opened Ports

  const REGISTRY_VERSION: nat := 1

  datatype Instance = Instance(
    workspace: string, port: Port, model: Option<string>, autostart: bool,
    shareCredentials: bool, env: map<string, string>, lastPid: Option<nat>)

  datatype Document = Document(version: nat, basePort: Port, instances: map<string, Instance>)

  const EMPTY: Document := Document(REGISTRY_VERSION, DEFAULT_BASE_PORT, map[])

  // ---------------------------------------------------------------- names

  function Upper(c: char): char {
    if 'a' <= c <= 'z' then (c as int - 32) as char else c
  }

  predicate Spells(s: string, a: char, b: char, c: char)
    requires |s| >= 3
  {
    Upper(s[0]) == a && Upper(s[1]) == b && Upper(s[2]) == c
  }

  /** CON, PRN, AUX, NUL, COM1 to COM9 and LPT1 to LPT9, in any case. */
  predicate IsDeviceStem(s: string) {
    || (|s| == 3 && (Spells(s, 'C', 'O', 'N') || Spells(s, 'P', 'R', 'N') || Spells(s, 'A', 'U', 'X') || Spells(s, 'N', 'U', 'L')))
    || (|s| == 4 && (Spells(s, 'C', 'O', 'M') || Spells(s, 'L', 'P', 'T')) && '1' <= s[3] <= '9')
  }

  /** Only what stands before the first dot matters, without trailing white space. */
  function Stem(name: string): string {
    TrimEnd(BeforeDot(name))
  }

  function BeforeDot(name: string): string {
    match IndexOf(name, '.') case None => name case Some(i) => name[..i]
  }

  predicate IsReservedDeviceName(name: string) {
    IsDeviceStem(Stem(name))
  }

  predicate IsAlphanumeric(c: char) {
    'a' <= c <= 'z' || 'A' <= c <= 'Z' || '0' <= c <= '9'
  }

  predicate IsNameChar(c: char) {
    IsAlphanumeric(c) || c == '-' || c == '_' || c == '.'
  }

  predicate IsValidName(name: string) {
    && 1 <= |name| <= 64
    && !(forall i :: 0 <= i < |name| ==> name[i] == '.')
    && !IsReservedDeviceName(name)
    && IsAlphanumeric(name[0])
    && name[|name| - 1] != '.'
    && forall i :: 0 <= i < |name| ==> IsNameChar(name[i])
  }

  /** A valid name contains none of the characters routes, cookies and paths split on. */
  lemma ValidNameChars(name: string)
    requires IsValidName(name)
    ensures forall c :: c in name ==> IsNameChar(c) && !IsWhitespace(c)
    ensures '/' !in name && ';' !in name && '=' !in name && '"' !in name && '?' !in name && ':' !in name
  {
  }

  /** A device name, in any case. */
  predicate IsDevice(s: string) {
    || SameIgnoringCase(s, "CON") || SameIgnoringCase(s, "PRN") || SameIgnoringCase(s, "AUX") || SameIgnoringCase(s, "NUL")
    || (exists d :: '1' <= d <= '9' && SameIgnoringCase(s, ['C', 'O', 'M', d]))
    || (exists d :: '1' <= d <= '9' && SameIgnoringCase(s, ['L', 'P', 'T', d]))
  }

  lemma SpellsIff(s: string, a: char, b: char, c: char)
    requires |s| == 3 && 'A' <= a <= 'Z' && 'A' <= b <= 'Z' && 'A' <= c <= 'Z'
    ensures Spells(s, a, b, c) <==> SameIgnoringCase(s, [a, b, c])
  {
  }

  lemma SpellsNumbered(s: string, a: char, b: char, c: char)
    requires |s| == 4 && 'A' <= a <= 'Z' && 'A' <= b <= 'Z' && 'A' <= c <= 'Z'
    ensures Spells(s, a, b, c) && '1' <= s[3] <= '9' <==> exists d :: '1' <= d <= '9' && SameIgnoringCase(s, [a, b, c, d])
  {
    if Spells(s, a, b, c) && '1' <= s[3] <= '9' {
      assert SameIgnoringCase(s, [a, b, c, s[3]]);
    }
    if d :| '1' <= d <= '9' && SameIgnoringCase(s, [a, b, c, d]) {
      assert SameLetter(s[0], a) && SameLetter(s[1], b) && SameLetter(s[2], c) && SameLetter(s[3], d);
    }
  }

  lemma DeviceStemIff(s: string)
    ensures IsDeviceStem(s) <==> IsDevice(s)
  {
    if |s| == 3 {
      SpellsIff(s, 'C', 'O', 'N');
      SpellsIff(s, 'P', 'R', 'N');
      SpellsIff(s, 'A', 'U', 'X');
      SpellsIff(s, 'N', 'U', 'L');
    } else if |s| == 4 {
      SpellsNumbered(s, 'C', 'O', 'M');
      SpellsNumbered(s, 'L', 'P', 'T');
    }
  }

  lemma NameCharVisible(c: char)
    requires IsNameChar(c)
    ensures !IsWhitespace(c)
  {
  }

  lemma NothingToTrim(stem: string)
    requires stem == "" || IsNameChar(stem[|stem| - 1])
    ensures TrimEnd(stem) == stem
  {
    if stem != "" {
      NameCharVisible(stem[|stem| - 1]);
    }
  }

  lemma FirstOfDots(name: string)
    ensures BeforeDot(name) == Split(name, '.')[0] && BeforeDot(name) <= name
  {
    match IndexOf(name, '.')
    case None => SplitSingle(name, '.');
    case Some(i) =>
      assert name == name[..i] + ['.'] + name[i + 1..];
      SplitCons(name[..i], name[i + 1..], '.');
  }

  /** The stem of a name of name characters is what stands before its first dot. */
  lemma StemOf(name: string)
    requires forall i :: 0 <= i < |name| ==> IsNameChar(name[i])
    ensures Stem(name) == Split(name, '.')[0]
  {
    FirstOfDots(name);
    var stem := BeforeDot(name);
    if stem != "" {
      assert stem[|stem| - 1] == name[|stem| - 1];
    }
    NothingToTrim(stem);
  }

  lemma ReservedIff(name: string, stem: string)
    requires Stem(name) == stem
    ensures IsReservedDeviceName(name) <==> IsDevice(stem)
  {
    DeviceStemIff(stem);
  }

  predicate NameShape(name: string) {
    && 1 <= |name| <= 64
    && (forall i :: 0 <= i < |name| ==>
          || 'a' <= name[i] <= 'z' || 'A' <= name[i] <= 'Z' || '0' <= name[i] <= '9'
          || name[i] == '-' || name[i] == '_' || name[i] == '.')
    && name[0] != '-' && name[0] != '_' && name[0] != '.' && name[|name| - 1] != '.'
  }

  lemma ShapeIff(name: string)
    ensures IsValidName(name) <==> NameShape(name) && !IsReservedDeviceName(name)
  {
  }

  /** The names that are accepted, exactly: at most 64 ASCII letters, digits, dashes, underscores
      and dots, with a letter or digit in front, no dot at the end, and no device name before
      the first dot. */
  lemma ValidNameIff(name: string)
    ensures IsValidName(name) <==> NameShape(name) && !IsDevice(Split(name, '.')[0])
  {
    ShapeIff(name);
    if NameShape(name) {
      StemOf(name);
      ReservedIff(name, Split(name, '.')[0]);
    }
  }

  // ---------------------------------------------------------------- consistency

  predicate Consistent(doc: Document) {
    && doc.version == REGISTRY_VERSION
    && (forall n :: n in doc.instances ==> IsValidName(n) && doc.instances[n].port != 0)
    && (forall a, b :: a in doc.instances && b in doc.instances && a != b ==>
          && doc.instances[a].port != doc.instances[b].port
          && doc.instances[a].workspace != doc.instances[b].workspace)
  }

  datatype Problem =
    | UnsupportedVersion
    | InvalidName(name: string)
    | NoPort(name: string)
    | SharedPort(first: string, second: string)
    | SharedWorkspace(first: string, second: string)

  /** A reported problem is really there. */
  predicate Present(p: Problem, doc: Document) {
    match p
    case UnsupportedVersion => doc.version != REGISTRY_VERSION
    case InvalidName(n) => n in doc.instances && !IsValidName(n)
    case NoPort(n) => n in doc.instances && doc.instances[n].port == 0
    case SharedPort(a, b) => a in doc.instances && b in doc.instances && a != b
                             && doc.instances[a].port == doc.instances[b].port
    case SharedWorkspace(a, b) => a in doc.instances && b in doc.instances && a != b
                                  && doc.instances[a].workspace == doc.instances[b].workspace
  }

  /** What one pass over the entries in `seen` has established: each is sound, and the two
      indices hold exactly the ports and workspaces of those entries, under their names. */
  ghost predicate Indexed(doc: Document, seen: set<string>, ports: map<Port, string>, workspaces: map<string, string>) {
    && seen <= doc.instances.Keys
    && (forall n :: n in seen ==> IsValidName(n) && doc.instances[n].port != 0)
    && (forall n :: n in seen ==> doc.instances[n].port in ports && ports[doc.instances[n].port] == n)
    && (forall n :: n in seen ==> doc.instances[n].workspace in workspaces && workspaces[doc.instances[n].workspace] == n)
    && (forall p :: p in ports ==> ports[p] in seen && doc.instances[ports[p]].port == p)
    && (forall w :: w in workspaces ==> workspaces[w] in seen && doc.instances[workspaces[w]].workspace == w)
  }

  /** The checks on one entry, against the entries already indexed. */
  function CheckEntry(doc: Document, name: string, ports: map<Port, string>, workspaces: map<string, string>): Option<Problem>
    requires name in doc.instances
  {
    var instance := doc.instances[name];
    if !IsValidName(name) then Some(InvalidName(name))
    else if instance.port == 0 then Some(NoPort(name))
    else if instance.port in ports then Some(SharedPort(ports[instance.port], name))
    else if instance.workspace in workspaces then Some(SharedWorkspace(workspaces[instance.workspace], name))
    else None
  }

  lemma IndexedNext(doc: Document, seen: set<string>, ports: map<Port, string>, workspaces: map<string, string>, name: string)
    requires Indexed(doc, seen, ports, workspaces) && name in doc.instances && name !in seen
    requires CheckEntry(doc, name, ports, workspaces).None?
    ensures Indexed(doc, seen + {name}, ports[doc.instances[name].port := name],
                    workspaces[doc.instances[name].workspace := name])
  {
  }

  /** What is in the two indices belongs to entries of the document. */
  ghost predicate IndicesSound(doc: Document, seen: set<string>, ports: map<Port, string>, workspaces: map<string, string>) {
    && seen <= doc.instances.Keys
    && (forall p :: p in ports ==> ports[p] in seen && doc.instances[ports[p]].port == p)
    && (forall w :: w in workspaces ==> workspaces[w] in seen && doc.instances[workspaces[w]].workspace == w)
  }

  lemma EntryProblem(doc: Document, seen: set<string>, ports: map<Port, string>, workspaces: map<string, string>, name: string)
    requires IndicesSound(doc, seen, ports, workspaces) && name in doc.instances && name !in seen
    requires CheckEntry(doc, name, ports, workspaces).Some?
    ensures Present(CheckEntry(doc, name, ports, workspaces).value, doc)
  {
    match CheckEntry(doc, name, ports, workspaces).value
    case SharedPort(a, b) => assert a == ports[doc.instances[name].port] && a in seen;
    case SharedWorkspace(a, b) => assert a == workspaces[doc.instances[name].workspace] && a in seen;
    case _ =>
  }

  lemma PresentInconsistent(p: Problem, doc: Document)
    requires Present(p, doc)
    ensures !Consistent(doc)
  {
  }

  /** A document is consistent exactly if it is of version 1 and has none of the problems. */
  lemma ConsistentIff(doc: Document)
    ensures Consistent(doc) <==> doc.version == 1 && forall p :: !Present(p, doc)
  {
    if doc.version == 1 && forall p :: !Present(p, doc) {
      forall n | n in doc.instances
        ensures IsValidName(n) && doc.instances[n].port != 0
      {
        assert !Present(InvalidName(n), doc) && !Present(NoPort(n), doc);
      }
      forall a, b | a in doc.instances && b in doc.instances && a != b
        ensures doc.instances[a].port != doc.instances[b].port && doc.instances[a].workspace != doc.instances[b].workspace
      {
        assert !Present(SharedPort(a, b), doc) && !Present(SharedWorkspace(a, b), doc);
      }
    }
  }

  lemma IndexedConsistent(doc: Document, ports: map<Port, string>, workspaces: map<string, string>)
    requires doc.version == REGISTRY_VERSION && Indexed(doc, doc.instances.Keys, ports, workspaces)
    ensures Consistent(doc)
  {
  }

  /** One pass over the entries, remembering who holds each port and each workspace. The
      source visits the entries in name order; no order matters to the verdict. */
  method Validate(doc: Document) returns (problem: Option<Problem>)
    ensures problem.None? <==> Consistent(doc)
    ensures problem.Some? ==> Present(problem.value, doc)
  {
    if doc.version != REGISTRY_VERSION {
      return Some(UnsupportedVersion);
    }
    var ports: map<Port, string>, workspaces: map<string, string> := map[], map[];
    var names := doc.instances.Keys;
    var left := names;
    while left != {}
      invariant left <= names && Indexed(doc, names - left, ports, workspaces)
      decreases left
    {
      var name :| name in left;
      problem := CheckEntry(doc, name, ports, workspaces);
      if problem.Some? {
        EntryProblem(doc, names - left, ports, workspaces, name);
        PresentInconsistent(problem.value, doc);
        return;
      }
      IndexedNext(doc, names - left, ports, workspaces, name);
      ports := ports[doc.instances[name].port := name];
      workspaces := workspaces[doc.instances[name].workspace := name];
      assert names - (left - {name}) == names - left + {name};
      left := left - {name};
    }
    assert names - left == names;
    IndexedConsistent(doc, ports, workspaces);
    return None;
  }

  // ---------------------------------------------------------------- edits

  /** The edits that commands pass to `update_registry`. `free` is the set of ports that can
      be bound while `add` holds the lock; `edit` carries the two values it writes. */
  datatype Command =
    | Add(name: string, workspace: string, model: Option<string>, share: bool, free: set<Port>)
    | Remove(name: string)
    | Edit(name: string, model: Option<string>, share: bool)

  /** Some instance already works in the directory (`find_by_workspace`). */
  predicate WorkspaceTaken(doc: Document, workspace: string) {
    exists n :: n in doc.instances && doc.instances[n].workspace == workspace
  }

  function ClaimedPorts(doc: Document): set<Port> {
    set n | n in doc.instances :: doc.instances[n].port
  }

  function Insert(doc: Document, name: string, instance: Instance): Option<Document> {
    if !IsValidName(name) || name in doc.instances then None
    else Some(doc.(instances := doc.instances[name := instance]))
  }

  /** The document after an edit; `None` abandons the change. */
  function ApplyCommand(cmd: Command, doc: Document): Option<Document> {
    match cmd
    case Add(name, workspace, model, share, free) =>
      if name in doc.instances || WorkspaceTaken(doc, workspace) then None
      else (
        match Allocation(None, doc.basePort, ClaimedPorts(doc), free)
        case None => None
        case Some(outcome) =>
          Insert(doc, name, Instance(workspace, PortOf(outcome), model, false, share, map[], None))
      )
    case Remove(name) =>
      if name !in doc.instances then None
      else Some(doc.(instances := doc.instances - {name}))
    case Edit(name, model, share) =>
      if name !in doc.instances then None
      else Some(doc.(instances := doc.instances[name := doc.instances[name].(model := model, shareCredentials := share)]))
  }

  /** The registry in memory, as the edit closures change it. */
  class RegistryObject {
    var version: nat
    var basePort: Port
    var instances: map<string, Instance>

    function Doc(): Document
      reads this
    {
      Document(version, basePort, instances)
    }

    constructor (doc: Document)
      ensures Doc() == doc
    {
      version, basePort, instances := doc.version, doc.basePort, doc.instances;
    }

    method InsertEntry(name: string, instance: Instance) returns (ok: bool)
      modifies this
      ensures ok == Insert(old(Doc()), name, instance).Some?
      ensures Doc() == if ok then Insert(old(Doc()), name, instance).value else old(Doc())
    {
      if !IsValidName(name) || name in instances {
        return false;
      }
      instances := instances[name := instance];
      return true;
    }

    method RemoveEntry(name: string) returns (removed: Option<Instance>)
      modifies this
      ensures removed == if name in old(instances) then Some(old(instances)[name]) else None
      ensures Doc() == old(Doc()).(instances := old(instances) - {name})
    {
      if name !in instances {
        assert instances - {name} == instances;
        return None;
      }
      removed := Some(instances[name]);
      instances := instances - {name};
    }

    /** The closures of `cmd_add`, `cmd_rm` and `cmd_edit`. */
    method Run(cmd: Command) returns (ok: bool)
      modifies this
      ensures ok == ApplyCommand(cmd, old(Doc())).Some?
      ensures Doc() == if ok then ApplyCommand(cmd, old(Doc())).value else old(Doc())
    {
      match cmd
      case Add(name, workspace, model, share, free) =>
        if name in instances || WorkspaceTaken(Doc(), workspace) {
          return false;
        }
        var outcome := Allocate(None, basePort, ClaimedPorts(Doc()), free);
        if outcome.None? {
          return false;
        }
        var instance := Instance(workspace, PortOf(outcome.value), model, false, share, map[], None);
        ok := InsertEntry(name, instance);
      case Remove(name) =>
        var removed := RemoveEntry(name);
        assert removed.None? ==> instances == old(instances);
        ok := removed.Some?;
      case Edit(name, model, share) =>
        if name !in instances {
          return false;
        }
        instances := instances[name := instances[name].(model := model, shareCredentials := share)];
        ok := true;
    }
  }

  // ---------------------------------------------------------------- what every edit keeps

  predicate Held(doc: Document, p: Port) {
    exists n :: n in doc.instances && doc.instances[n].port == p
  }

  /** Where `add` looks for a port: from the base port on, but not below 3081. */
  function FirstPort(doc: Document): nat {
    if doc.basePort < 3081 then 3081 else doc.basePort
  }

  /** When an edit is refused. */
  predicate Refused(cmd: Command, doc: Document) {
    match cmd
    case Add(name, workspace, _, _, free) =>
      || !IsValidName(name) || name in doc.instances
      || WorkspaceTaken(doc, workspace)
      || doc.basePort == 3080
      || forall p: Port :: FirstPort(doc) <= p < FirstPort(doc) + 1000 ==> p !in free || Held(doc, p)
    case _ => cmd.name !in doc.instances
  }

  lemma ClaimedIff(doc: Document, p: Port)
    ensures p in ClaimedPorts(doc) <==> Held(doc, p)
  {
  }

  lemma RefusedIff(cmd: Command, doc: Document)
    ensures ApplyCommand(cmd, doc).None? <==> Refused(cmd, doc)
  {
    if cmd.Add? {
      AllocationMeaning(None, doc.basePort, ClaimedPorts(doc), cmd.free);
      forall p: Port
        ensures Usable(p, ClaimedPorts(doc), cmd.free) <==> p in cmd.free && !Held(doc, p)
      {
        ClaimedIff(doc, p);
      }
    }
  }

  /** An edit touches the entry it names and nothing else; what an added entry holds, its port
      being the first that is free and nobody's, and what an edited one. */
  lemma EditTouchesOne(cmd: Command, doc: Document)
    requires ApplyCommand(cmd, doc).Some?
    ensures var after := ApplyCommand(cmd, doc).value;
            && after.version == doc.version && after.basePort == doc.basePort
            && (forall n :: n != cmd.name ==> (n in after.instances <==> n in doc.instances))
            && (forall n :: n != cmd.name && n in doc.instances ==> after.instances[n] == doc.instances[n])
            && (cmd.name in after.instances <==> !cmd.Remove?)
    ensures cmd.Add? ==>
            var port := ApplyCommand(cmd, doc).value.instances[cmd.name].port;
            && ApplyCommand(cmd, doc).value.instances[cmd.name]
                 == Instance(cmd.workspace, port, cmd.model, false, cmd.share, map[], None)
            && FirstPort(doc) <= port < FirstPort(doc) + 1000 && port in cmd.free && !Held(doc, port)
            && forall p: Port :: FirstPort(doc) <= p < port ==> p !in cmd.free || Held(doc, p)
    ensures cmd.Edit? ==>
            ApplyCommand(cmd, doc).value.instances[cmd.name]
              == doc.instances[cmd.name].(model := cmd.model, shareCredentials := cmd.share)
  {
    if cmd.Add? {
      AllocationMeaning(None, doc.basePort, ClaimedPorts(doc), cmd.free);
      forall p: Port
        ensures Usable(p, ClaimedPorts(doc), cmd.free) <==> p in cmd.free && !Held(doc, p)
      {
        ClaimedIff(doc, p);
      }
    }
  }

  /** Removing what was just added gives the document back. */
  lemma RemoveUndoesAdd(cmd: Command, doc: Document)
    requires cmd.Add? && ApplyCommand(cmd, doc).Some?
    ensures ApplyCommand(Remove(cmd.name), ApplyCommand(cmd, doc).value) == Some(doc)
  {
    var after := ApplyCommand(cmd, doc).value;
    assert after.instances - {cmd.name} == doc.instances;
  }

  /** No edit of a consistent document fails the validation in `save`. */
  lemma EditsStayConsistent(cmd: Command, doc: Document)
    requires Consistent(doc) && ApplyCommand(cmd, doc).Some?
    ensures Consistent(ApplyCommand(cmd, doc).value)
  {
    if cmd.Add? {
      AllocationMeaning(None, doc.basePort, ClaimedPorts(doc), cmd.free);
      var instance := ApplyCommand(cmd, doc).value.instances[cmd.name];
      ClaimedIff(doc, instance.port);
      AddedConsistent(doc, cmd.name, instance);
    }
  }

  lemma AddedConsistent(doc: Document, name: string, instance: Instance)
    requires Consistent(doc) && IsValidName(name) && instance.port != 0
    requires !Held(doc, instance.port) && !WorkspaceTaken(doc, instance.workspace)
    ensures Consistent(doc.(instances := doc.instances[name := instance]))
  {
  }

  /** The documents a sequence of commands produces; a refused command changes nothing. */
  function Fold(doc: Document, cmds: seq<Command>): Document {
    if cmds == [] then doc
    else
      var before := Fold(doc, cmds[..|cmds| - 1]);
      ApplyCommand(cmds[|cmds| - 1], before).GetOr(before)
  }

  predicate Healthy(doc: Document) {
    && Consistent(doc)
    && doc.basePort == DEFAULT_BASE_PORT
    && forall n :: n in doc.instances ==> doc.instances[n].port >= 3081
  }

  lemma EditsStayHealthy(cmd: Command, doc: Document)
    requires Healthy(doc) && ApplyCommand(cmd, doc).Some?
    ensures Healthy(ApplyCommand(cmd, doc).value)
  {
    EditsStayConsistent(cmd, doc);
    if cmd.Add? {
      AllocationMeaning(None, doc.basePort, ClaimedPorts(doc), cmd.free);
    }
  }

  /** However many commands run, from an empty registry: names are valid, ports are pairwise
      distinct and never below 3081, and workspaces are pairwise distinct. */
  lemma {:induction false} ReachableRegistries(cmds: seq<Command>)
    ensures Healthy(Fold(EMPTY, cmds))
  {
    if cmds != [] {
      var before, cmd := Fold(EMPTY, cmds[..|cmds| - 1]), cmds[|cmds| - 1];
      ReachableRegistries(cmds[..|cmds| - 1]);
      if ApplyCommand(cmd, before).Some? {
        EditsStayHealthy(cmd, before);
      }
    }
  }

  // ---------------------------------------------------------------- what edit writes

  /** `router edit` reads the entry before it takes the lock and computes both written values
      from that snapshot: an option not given is filled in from the snapshot. */
  function EditRequest(name: string, model: Option<Option<string>>, share: Option<bool>, snapshot: Instance): Command {
    Edit(name,
         if model.Some? then model.value else snapshot.model,
         if share.Some? then share.value else snapshot.shareCredentials)
  }

  /** What the user asked for: the named fields, and no others. */
  function AsRequested(entry: Instance, model: Option<Option<string>>, share: Option<bool>): Instance {
    var e := if model.Some? then entry.(model := model.value) else entry;
    if share.Some? then e.(shareCredentials := share.value) else e
  }

  /** The edit does what was asked exactly when the fields that were not named have not
      changed between the snapshot and the lock. */
  lemma EditAsRequestedIff(doc: Document, name: string, model: Option<Option<string>>, share: Option<bool>, snapshot: Instance)
    requires name in doc.instances
    ensures ApplyCommand(EditRequest(name, model, share, snapshot), doc)
         == Some(doc.(instances := doc.instances[name := AsRequested(doc.instances[name], model, share)]))
      <==> (model.None? ==> snapshot.model == doc.instances[name].model)
           && (share.None? ==> snapshot.shareCredentials == doc.instances[name].shareCredentials)
  {
    var r := ApplyCommand(EditRequest(name, model, share, snapshot), doc).value;
    assert r.instances[name] == doc.instances[name].(
      model := EditRequest(name, model, share, snapshot).model,
      shareCredentials := EditRequest(name, model, share, snapshot).share);
    assert doc.instances[name := AsRequested(doc.instances[name], model, share)][name]
      == AsRequested(doc.instances[name], model, share);
  }

  /** Two edits that name different fields, both started from the same document: the second
      silently takes back the first. */
  lemma ConcurrentEditsLoseOne() returns (doc: Document, first: Command, second: Command, after: Document)
    ensures Consistent(doc) && "a" in doc.instances
    ensures first == EditRequest("a", Some(Some("m")), None, doc.instances["a"])
    ensures second == EditRequest("a", None, Some(true), doc.instances["a"])
    ensures after == Fold(doc, [first, second]) && "a" in after.instances
    ensures after.instances["a"].shareCredentials && after.instances["a"].model == None
  {
    var entry := Instance("/w", 3081, None, false, false, map[], None);
    doc := Document(REGISTRY_VERSION, DEFAULT_BASE_PORT, map["a" := entry]);
    ShortNameValid("a");
    first := Edit("a", Some("m"), false);
    second := Edit("a", None, true);
    assert [first, second][..1] == [first] && [first][..0] == [];
    assert Fold(doc, [first]) == ApplyCommand(first, doc).value;
    after := Fold(doc, [first, second]);
    assert after == ApplyCommand(second, Fold(doc, [first])).value;
  }

  lemma ShortNameValid(name: string)
    requires |name| == 1 && IsAlphanumeric(name[0])
    ensures IsValidName(name)
  {
  }

  // ---------------------------------------------------------------- state roots

  function PathJoin(base: string, part: string): string {
    if base == "" || EndsWith(base, "/") then base + part else base + "/" + part
  }

  function StateRoot(home: string, name: string): string {
    PathJoin(PathJoin(PathJoin(home, "instances"), name), "dsh")
  }

  lemma JoinedBelow(base: string, part: string)
    requires base != "" && base[|base| - 1] != '/'
    ensures PathJoin(base, part) == base + "/" + part
  {
  }

  lemma InstanceDir(home: string, name: string) returns (dir: string)
    requires IsValidName(name)
    ensures dir == PathJoin(home, "instances") && StateRoot(home, name) == dir + "/" + name + "/" + "dsh"
  {
    dir := PathJoin(home, "instances");
    assert dir[|dir| - 1] == 's';
    JoinedBelow(dir, name);
    var inner := dir + "/" + name;
    assert inner[|inner| - 1] == name[|name| - 1];
    ValidNameChars(name);
    JoinedBelow(inner, "dsh");
  }

  /** A valid name contributes exactly one component. */
  lemma StateRootText(home: string, name: string, x: string)
    requires IsValidName(name)
    ensures StateRoot(home, name) + x == PathJoin(home, "instances") + "/" + (name + ['/'] + ("dsh" + x))
  {
    var dir := InstanceDir(home, name);
    RootSpelled(dir + "/", name, x);
  }

  lemma RootSpelled(below: string, name: string, x: string)
    ensures below + name + "/" + "dsh" + x == below + (name + ['/'] + ("dsh" + x))
  {
  }

  /** Where a state root is: `instances/<name>/dsh` below the home. */
  lemma StateRootIs(home: string, name: string)
    requires IsValidName(name)
    ensures StateRoot(home, name)
         == (if home == "" || home[|home| - 1] == '/' then home else home + "/") + ("instances/" + name + "/dsh")
  {
    var dir := InstanceDir(home, name);
    var below := if home == "" || home[|home| - 1] == '/' then home else home + "/";
    assert dir == below + "instances";
    BelowSpelled(below, name);
  }

  lemma BelowSpelled(below: string, name: string)
    ensures below + "instances" + "/" + name + "/" + "dsh" == below + ("instances/" + name + "/dsh")
  {
  }

  /** Two instances never share a file: no path below one state root is a path below another,
      whatever follows. */
  lemma StateRootsDisjoint(home: string, a: string, b: string, x: string, y: string)
    requires IsValidName(a) && IsValidName(b) && a != b
    ensures StateRoot(home, a) + x != StateRoot(home, b) + y
  {
    StateRootText(home, a, x);
    StateRootText(home, b, y);
    ValidNameChars(a);
    ValidNameChars(b);
    PathsDiffer(PathJoin(home, "instances") + "/", a, b, "dsh" + x, "dsh" + y);
  }

  lemma PathsDiffer(dir: string, a: string, b: string, x: string, y: string)
    requires '/' !in a && '/' !in b && a != b
    ensures dir + (a + ['/'] + x) != dir + (b + ['/'] + y)
  {
    var p, q := a + ['/'] + x, b + ['/'] + y;
    SplitOnceExact(a, x, '/');
    SplitOnceExact(b, y, '/');
    assert (dir + p)[|dir|..] == p;
    assert (dir + q)[|dir|..] == q;
  }
}
