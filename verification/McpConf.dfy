/**
 The connector configuration a session is launched with: which definitions reach it, and which
 of them are rewritten to start inside the sandbox wrapper.
 */
module McpConf {
  import opened Common

  /** JSON, as far as a definition is looked at. */
  datatype Value = Str(s: string) | Arr(items: seq<Value>) | Obj(fields: map<string, Value>) | Scalar(code: int)

  datatype Origin = User | Directory(dir: string) | Repository(file: string) | Plugin(plugin: string, from: string)

  predicate IsThirdParty(o: Origin) {
    o.Repository? || o.Plugin?
  }

  datatype Definition = Definition(name: string, key: string, origin: Origin, def: Value)

  datatype Wire = Program(command: string, args: seq<string>) | Endpoint(url: string) | Unplaceable(what: string)

  function StringsOf(items: seq<Value>): seq<string> {
    if items == [] then []
    else
      var init, last := StringsOf(items[..|items|-1]), items[|items|-1];
      if last.Str? then init + [last.s] else init
  }

  predicate HasString(fields: map<string, Value>, key: string) {
    key in fields && fields[key].Str?
  }

  function WireOf(def: Value): Wire {
    if !def.Obj? then Unplaceable("not an object")
    else if HasString(def.fields, "url") then Endpoint(def.fields["url"].s)
    else if HasString(def.fields, "command") then
      Program(def.fields["command"].s,
        if "args" in def.fields && def.fields["args"].Arr? then StringsOf(def.fields["args"].items) else [])
    else if HasString(def.fields, "type") && def.fields["type"].s != "" then Unplaceable(def.fields["type"].s)
    else Unplaceable("no transport")
  }

  // ---- the wrapper ----

  /** The components of a Unix path, without the empty and the `.` ones. */
  function Components(path: string, part: string): seq<string>
    decreases |path|
  {
    if path == "" then Component(part)
    else if path[0] == '/' then Component(part) + Components(path[1..], "")
    else Components(path[1..], part + [path[0]])
  }

  function Component(part: string): seq<string> {
    if part == "" || part == "." then [] else [part]
  }

  function FileName(path: string): Option<string> {
    var parts := Components(path, "");
    if parts == [] || parts[|parts|-1] == ".." then None else Some(parts[|parts|-1])
  }

  predicate IsCli(command: string) {
    FileName(command) == Some("rime") || FileName(command) == Some("apex")
  }

  function Wrapped(name: string, command: string, args: seq<string>): seq<string> {
    ["mcp", "run", name, "--", command] + args
  }

  /** The server a wrapped command line confines, and the command line inside. */
  function Unwrap(command: string, args: seq<string>): Option<(string, seq<string>)> {
    if IsCli(command) && |args| > 4 && args[0] == "mcp" && args[1] == "run" && args[3] == "--"
    then Some((args[2], args[4..])) else None
  }

  function AsStrings(args: seq<string>): seq<Value> {
    seq(|args|, i requires 0 <= i < |args| => Str(args[i]))
  }

  /** The same definition with a different command line. */
  function Rewrite(def: Value, command: string, args: seq<string>): Value {
    var fields := if def.Obj? then def.fields else map[];
    Obj(fields["command" := Str(command)]["args" := Arr(AsStrings(args))])
  }

  predicate UsableAsServerName(name: string) {
    name != "" && name != "." && name != ".." && '/' !in name && '\\' !in name && '\0' !in name
  }

  // ---- selection ----

  datatype ConnectorPolicy = AsConfigured | LocalOnly | Curated | NoConnectors

  datatype Approval = Approval(enabled: set<string>, disabled: set<string>)

  /** Everything a launch is decided by, apart from the definitions. */
  datatype Launch = Launch(approval: Approval, policy: ConnectorPolicy, allow: set<string>, rime: Option<string>)

  predicate Keeps(l: Launch, d: Definition) {
    && d.key !in l.approval.disabled
    && (d.origin.Repository? ==> d.key in l.approval.enabled)
    && match l.policy
       case AsConfigured => true
       case NoConnectors => false
       case LocalOnly => WireOf(d.def).Program?
       case Curated => d.name in l.allow
  }

  // ---- what becomes of a kept definition ----

  datatype Wrap = InDefinition | AtLaunch | Not | NoProcess

  function Place(l: Launch, d: Definition): (Value, Wrap) {
    match WireOf(d.def)
    case Program(command, args) =>
      if Unwrap(command, args).Some? then (d.def, InDefinition)
      else if !IsThirdParty(d.origin) || !UsableAsServerName(d.name) || l.rime.None? then (d.def, Not)
      else (Rewrite(d.def, l.rime.value, Wrapped(d.name, command, args)), AtLaunch)
    case Endpoint(_) => (d.def, NoProcess)
    case Unplaceable(_) => (d.def, NoProcess)
  }

  datatype Decision = Decision(name: string, origin: Origin, kept: bool, confined: Option<Wrap>)

  function Decided(l: Launch, d: Definition): Decision {
    Decision(d.name, d.origin, Keeps(l, d), if Keeps(l, d) then Some(Place(l, d).1) else None)
  }

  /** The servers of the document; a later definition of the same name replaces an earlier one. */
  function Document(l: Launch, defs: seq<Definition>): map<string, Value> {
    if defs == [] then map[]
    else
      var init, last := Document(l, defs[..|defs|-1]), defs[|defs|-1];
      if Keeps(l, last) then init[last.name := Place(l, last).0] else init
  }

  method Curate(l: Launch, defs: seq<Definition>) returns (servers: map<string, Value>, decisions: seq<Decision>)
    ensures servers == Document(l, defs)
    ensures |decisions| == |defs| && forall i :: 0 <= i < |defs| ==> decisions[i] == Decided(l, defs[i])
  {
    servers, decisions := map[], [];
    for i := 0 to |defs|
      invariant servers == Document(l, defs[..i])
      invariant |decisions| == i && forall k :: 0 <= k < i ==> decisions[k] == Decided(l, defs[k])
    {
      assert defs[..i + 1][..i] == defs[..i];
      var d := defs[i];
      if !Keeps(l, d) {
        decisions := decisions + [Decision(d.name, d.origin, false, None)];
        continue;
      }
      var (value, confined) := Place(l, d);
      servers := servers[d.name := value];
      decisions := decisions + [Decision(d.name, d.origin, true, Some(confined))];
    }
    assert defs[..|defs|] == defs;
  }

  // ---- a wrapper comes off again ----

  lemma {:induction false} StringsBack(args: seq<string>)
    ensures StringsOf(AsStrings(args)) == args
  {
    if args != [] {
      assert AsStrings(args)[..|args|-1] == AsStrings(args[..|args|-1]);
      StringsBack(args[..|args|-1]);
      assert args == args[..|args|-1] + [args[|args|-1]];
    }
  }

  /** Arguments that are no strings are left out, and the others keep their order. */
  lemma {:induction false} StringsConcat(a: seq<Value>, b: seq<Value>)
    ensures StringsOf(a + b) == StringsOf(a) + StringsOf(b)
    ensures forall v: Value :: StringsOf([v]) == if v.Str? then [v.s] else []
    decreases |b|
  {
    forall v: Value ensures StringsOf([v]) == if v.Str? then [v.s] else [] {
      assert [v][..0] == [];
    }
    if b == [] {
      assert a + b == a;
    } else {
      assert (a + b)[..|a + b|-1] == a + b[..|b|-1];
      StringsConcat(a, b[..|b|-1]);
    }
  }

  /** What a rewritten program definition says: the new command line, and every other key as it was. */
  lemma RewriteReads(def: Value, command: string, args: seq<string>)
    requires WireOf(def).Program?
    ensures WireOf(Rewrite(def, command, args)) == Program(command, args)
    ensures Rewrite(def, command, args).fields - {"command", "args"} == def.fields - {"command", "args"}
  {
    StringsBack(args);
  }

  /** Every program wrapped at launch unwraps to its own name and its original command line. */
  lemma WrappedUnwraps(l: Launch, d: Definition)
    requires Place(l, d).1 == AtLaunch && IsCli(l.rime.value)
    ensures var given, placed := WireOf(d.def), WireOf(Place(l, d).0);
            && given.Program? && placed.Program?
            && Unwrap(placed.command, placed.args) == Some((d.name, [given.command] + given.args))
            && Place(l, d).0.fields - {"command", "args"} == d.def.fields - {"command", "args"}
  {
    var w := WireOf(d.def);
    RewriteReads(d.def, l.rime.value, Wrapped(d.name, w.command, w.args));
    assert Wrapped(d.name, w.command, w.args)[4..] == [w.command] + w.args;
  }

  // ---- the document's keys ----

  /** The kept definition that decides a name: the last one. */
  function LastKept(l: Launch, defs: seq<Definition>, name: string): (r: Option<nat>)
    ensures r.Some? ==> r.value < |defs| && Keeps(l, defs[r.value]) && defs[r.value].name == name
    ensures r.None? ==> forall k :: 0 <= k < |defs| ==> !(Keeps(l, defs[k]) && defs[k].name == name)
  {
    if defs == [] then None
    else if Keeps(l, defs[|defs|-1]) && defs[|defs|-1].name == name then Some(|defs|-1)
    else LastKept(l, defs[..|defs|-1], name)
  }

  lemma {:induction false} DocumentAt(l: Launch, defs: seq<Definition>, name: string)
    ensures name in Document(l, defs) <==> LastKept(l, defs, name).Some?
    ensures name in Document(l, defs) ==> Document(l, defs)[name] == Place(l, defs[LastKept(l, defs, name).value]).0
  {
    if defs != [] {
      DocumentAt(l, defs[..|defs|-1], name);
    }
  }

  /** The document's keys are exactly the kept names. */
  lemma KeysAreKept(l: Launch, defs: seq<Definition>, name: string)
    ensures name in Document(l, defs) <==> exists k :: 0 <= k < |defs| && Keeps(l, defs[k]) && defs[k].name == name
  {
    DocumentAt(l, defs, name);
  }

  // ---- which names those are, in terms of the launch and the definitions ----

  /** Not switched off by the user and, out of a repository, approved by the user. */
  predicate Approved(l: Launch, d: Definition) {
    d.key !in l.approval.disabled && (d.origin.Repository? ==> d.key in l.approval.enabled)
  }

  /** A definition that starts a local process: a command and no address. */
  predicate IsProgram(def: Value) {
    def.Obj? && "command" in def.fields && def.fields["command"].Str?
    && !("url" in def.fields && def.fields["url"].Str?)
  }

  lemma ProgramIs(def: Value)
    ensures WireOf(def).Program? <==> IsProgram(def)
    ensures IsProgram(def) ==> WireOf(def).command == def.fields["command"].s
    ensures def.Obj? && "url" in def.fields && def.fields["url"].Str? ==> WireOf(def) == Endpoint(def.fields["url"].s)
  {
  }

  /** Under every policy no name gets in without an approved definition of it. */
  lemma OnlyApproved(l: Launch, defs: seq<Definition>, name: string)
    ensures name in Document(l, defs) ==> exists k :: 0 <= k < |defs| && defs[k].name == name && Approved(l, defs[k])
  {
    KeysAreKept(l, defs, name);
  }

  /** The exact set of names under each policy. */
  lemma NamesByPolicy(l: Launch, defs: seq<Definition>, name: string)
    ensures l.policy == AsConfigured ==>
              (name in Document(l, defs) <==>
                 exists k :: 0 <= k < |defs| && defs[k].name == name && Approved(l, defs[k]))
    ensures l.policy == LocalOnly ==>
              (name in Document(l, defs) <==>
                 exists k :: 0 <= k < |defs| && defs[k].name == name && Approved(l, defs[k]) && IsProgram(defs[k].def))
    ensures l.policy == Curated ==>
              (name in Document(l, defs) <==>
                 name in l.allow && exists k :: 0 <= k < |defs| && defs[k].name == name && Approved(l, defs[k]))
    ensures l.policy == NoConnectors ==> name !in Document(l, defs)
  {
    KeysAreKept(l, defs, name);
    forall k | 0 <= k < |defs| ensures WireOf(defs[k].def).Program? <==> IsProgram(defs[k].def) {
      ProgramIs(defs[k].def);
    }
  }

  /** Each definition's decision says whether it was kept by the same rule. */
  lemma DecisionSays(l: Launch, d: Definition)
    ensures var dec := Decided(l, d);
            && dec.name == d.name && dec.origin == d.origin
            && (dec.kept <==> Approved(l, d) && (match l.policy
                                                 case AsConfigured => true
                                                 case LocalOnly => IsProgram(d.def)
                                                 case Curated => d.name in l.allow
                                                 case NoConnectors => false))
            && (dec.confined.Some? <==> dec.kept)
  {
    ProgramIs(d.def);
  }

  // ---- what a kept definition becomes ----

  /** A name that can be a directory of its own. */
  predicate CanBeDirectory(name: string) {
    name !in {"", ".", ".."} && forall c :: c in name ==> c != '/' && c != '\\' && c != '\0'
  }

  lemma UsableIs(name: string)
    ensures UsableAsServerName(name) <==> CanBeDirectory(name)
  {
  }

  /** A command line of the wrapper: its name, and what it confines. */
  ghost predicate IsWrapperLine(command: string, args: seq<string>, name: string, inner: seq<string>) {
    FileName(command) in {Some("rime"), Some("apex")} && inner != [] && args == ["mcp", "run", name, "--"] + inner
  }

  /** Unwrapping recognises exactly those. */
  lemma UnwrapExact(command: string, args: seq<string>, name: string, inner: seq<string>)
    ensures Unwrap(command, args) == Some((name, inner)) <==> IsWrapperLine(command, args, name, inner)
  {
    if Unwrap(command, args) == Some((name, inner)) {
      assert args == args[..4] + args[4..];
      assert args[..4] == ["mcp", "run", name, "--"];
    }
    if IsWrapperLine(command, args, name, inner) {
      assert args[..4] == ["mcp", "run", name, "--"] && args[4..] == inner;
      assert args[0] == "mcp" && args[1] == "run" && args[2] == name && args[3] == "--";
    }
  }

  /** A third-party program that can be wrapped and is not yet. */
  predicate ToBeWrapped(l: Launch, d: Definition) {
    && IsProgram(d.def) && (d.origin.Repository? || d.origin.Plugin?) && CanBeDirectory(d.name) && l.rime.Some?
    && Unwrap(WireOf(d.def).command, WireOf(d.def).args).None?
  }

  /** It starts through the wrapper, with every other key as it was; any other definition stays as it is. */
  lemma PlacedAs(l: Launch, d: Definition)
    ensures Place(l, d).1 == AtLaunch <==> ToBeWrapped(l, d)
    ensures !ToBeWrapped(l, d) ==> Place(l, d).0 == d.def
    ensures ToBeWrapped(l, d) ==>
              var w := WireOf(d.def);
              && Place(l, d).0.Obj?
              && Place(l, d).0.fields - {"command", "args"} == d.def.fields - {"command", "args"}
              && WireOf(Place(l, d).0) == Program(l.rime.value, ["mcp", "run", d.name, "--", w.command] + w.args)
  {
    ProgramIs(d.def);
    UsableIs(d.name);
    if ToBeWrapped(l, d) {
      var w := WireOf(d.def);
      RewriteReads(d.def, l.rime.value, Wrapped(d.name, w.command, w.args));
    }
  }

  /** What stands under a name is what the last kept definition of it becomes. */
  lemma LastDecides(l: Launch, defs: seq<Definition>, k: nat)
    requires k < |defs| && Keeps(l, defs[k])
    requires forall i :: k < i < |defs| && defs[i].name == defs[k].name ==> !Keeps(l, defs[i])
    ensures defs[k].name in Document(l, defs) && Document(l, defs)[defs[k].name] == Place(l, defs[k]).0
  {
    DocumentAt(l, defs, defs[k].name);
    LastKeptIs(l, defs, k);
  }

  lemma {:induction false} LastKeptIs(l: Launch, defs: seq<Definition>, k: nat)
    requires k < |defs| && Keeps(l, defs[k])
    requires forall i :: k < i < |defs| && defs[i].name == defs[k].name ==> !Keeps(l, defs[i])
    ensures LastKept(l, defs, defs[k].name) == Some(k)
  {
    if k < |defs| - 1 {
      LastKeptIs(l, defs[..|defs|-1], k);
    }
  }

  // ---- the name of a program ----

  predicate IsBase(base: string) {
    base != "" && base != "." && base != ".." && '/' !in base
  }

  lemma {:induction false} PlainComponents(path: string, part: string)
    requires '/' !in path
    ensures Components(path, part) == Component(part + path)
    decreases |path|
  {
    if path == "" {
      assert part + path == part;
    } else {
      assert path[0] in path;
      PlainComponents(path[1..], part + [path[0]]);
      assert part + [path[0]] + path[1..] == part + path;
    }
  }

  lemma {:induction false} LastComponent(dir: string, part: string, base: string)
    requires IsBase(base)
    ensures Components(dir + "/" + base, part) != [] 
    ensures var parts := Components(dir + "/" + base, part); parts[|parts|-1] == base
    decreases |dir|
  {
    var path := dir + "/" + base;
    if dir == "" {
      assert path[0] == '/' && path[1..] == base;
      PlainComponents(base, "");
      assert "" + base == base;
    } else {
      assert path[1..] == dir[1..] + "/" + base;
      LastComponent(dir[1..], if path[0] == '/' then "" else part + [path[0]], base);
    }
  }

  /** A program is called by the last part of its path. */
  lemma FileNameIs(dir: string, base: string)
    requires IsBase(base)
    ensures FileName(base) == Some(base) && FileName(dir + "/" + base) == Some(base)
  {
    PlainComponents(base, "");
    assert "" + base == base;
    LastComponent(dir, "", base);
  }

  /** Fewer connectors at each step from as-configured through local-only to none. */
  lemma KeptSetsNest(l: Launch, defs: seq<Definition>, name: string)
    ensures name !in Document(l.(policy := NoConnectors), defs)
    ensures name in Document(l.(policy := LocalOnly), defs) ==> name in Document(l.(policy := AsConfigured), defs)
    ensures name in Document(l.(policy := Curated), defs) ==> name in Document(l.(policy := AsConfigured), defs)
  {
    DocumentAt(l.(policy := NoConnectors), defs, name);
    DocumentAt(l.(policy := LocalOnly), defs, name);
    DocumentAt(l.(policy := Curated), defs, name);
    DocumentAt(l.(policy := AsConfigured), defs, name);
    var all := l.(policy := AsConfigured);
    forall k | 0 <= k < |defs| && (Keeps(l.(policy := LocalOnly), defs[k]) || Keeps(l.(policy := Curated), defs[k]))
      ensures Keeps(all, defs[k])
    {
    }
  }

  // ---- launching from the document itself ----

  /** The kept definitions with their values read back from a document. */
  function Reread(l: Launch, defs: seq<Definition>, doc: map<string, Value>): seq<Definition> {
    if defs == [] then []
    else
      var init, last := Reread(l, defs[..|defs|-1], doc), defs[|defs|-1];
      if Keeps(l, last) && last.name in doc then init + [last.(def := doc[last.name])] else init
  }

  lemma PlacedStaysKept(l: Launch, d: Definition, e: Definition)
    requires Keeps(l, d) && Keeps(l, e) && d.name == e.name
    ensures Keeps(l, e.(def := Place(l, d).0))
  {
    if Place(l, d).1 == AtLaunch {
      var w := WireOf(d.def);
      RewriteReads(d.def, l.rime.value, Wrapped(d.name, w.command, w.args));
    }
  }

  /** Placing a placed definition again changes it exactly when it was wrapped with a binary that is not ours. */
  lemma PlaceAgain(l: Launch, d: Definition)
    ensures Place(l, d.(def := Place(l, d).0)).0 == Place(l, d).0 <==> Place(l, d).1 != AtLaunch || IsCli(l.rime.value)
  {
    if Place(l, d).1 == AtLaunch {
      var w := WireOf(d.def);
      var once := Wrapped(d.name, w.command, w.args);
      RewriteReads(d.def, l.rime.value, once);
      if !IsCli(l.rime.value) {
        var v := Place(l, d).0;
        var twice := Wrapped(d.name, l.rime.value, once);
        RewriteReads(v, l.rime.value, twice);
        assert |twice| != |once|;
      }
    }
  }

  /** Every kept definition is in the document and still kept when read back from it. */
  ghost predicate Ready(l: Launch, defs: seq<Definition>, doc: map<string, Value>) {
    forall k :: 0 <= k < |defs| && Keeps(l, defs[k]) ==> ReadyAt(l, defs[k], doc)
  }

  predicate ReadyAt(l: Launch, d: Definition, doc: map<string, Value>) {
    d.name in doc && Keeps(l, d.(def := doc[d.name]))
  }

  lemma DocumentAppend(l: Launch, defs: seq<Definition>, d: Definition)
    ensures Document(l, defs + [d]) ==
              if Keeps(l, d) then Document(l, defs)[d.name := Place(l, d).0] else Document(l, defs)
  {
    assert (defs + [d])[..|defs|] == defs;
  }

  /** Re-reading keeps each name's deciding definition. */
  lemma {:induction false} RereadAt(l: Launch, defs: seq<Definition>, doc: map<string, Value>, name: string)
    requires Ready(l, defs, doc)
    ensures var again, k := Document(l, Reread(l, defs, doc)), LastKept(l, defs, name);
            && (name in again <==> k.Some?)
            && (k.Some? ==> name in doc && again[name] == Place(l, defs[k.value].(def := doc[name])).0)
  {
    if defs != [] {
      var init, last := defs[..|defs|-1], defs[|defs|-1];
      RereadAt(l, init, doc, name);
      if Keeps(l, last) {
        assert ReadyAt(l, last, doc);
        DocumentAppend(l, Reread(l, init, doc), last.(def := doc[last.name]));
      }
    }
  }

  /** The definition deciding `name` is wrapped at launch with a binary the wrapper test does not know. */
  predicate ForeignlyWrapped(l: Launch, defs: seq<Definition>, name: string) {
    var k := LastKept(l, defs, name);
    k.Some? && Place(l, defs[k.value]).1 == AtLaunch && !IsCli(l.rime.value)
  }

  lemma RereadReady(l: Launch, defs: seq<Definition>)
    ensures Ready(l, defs, Document(l, defs))
  {
    forall k | 0 <= k < |defs| && Keeps(l, defs[k]) ensures ReadyAt(l, defs[k], Document(l, defs)) {
      DocumentAt(l, defs, defs[k].name);
      PlacedStaysKept(l, defs[LastKept(l, defs, defs[k].name).value], defs[k]);
    }
  }

  lemma RereadName(l: Launch, defs: seq<Definition>, name: string)
    ensures var doc := Document(l, defs);
            var again := Document(l, Reread(l, defs, doc));
            && (name in again <==> name in doc)
            && (name in doc ==> (again[name] == doc[name] <==> !ForeignlyWrapped(l, defs, name)))
            && (ForeignlyWrapped(l, defs, name) ==> name in doc)
  {
    RereadReady(l, defs);
    RereadAt(l, defs, Document(l, defs), name);
    DocumentAt(l, defs, name);
    var k := LastKept(l, defs, name);
    if k.Some? {
      PlaceAgain(l, defs[k.value]);
    }
  }

  /**
   Curating what the document holds gives the document again, exactly when nothing in it was
   wrapped with a binary whose name is not the runtime's own.
   */
  lemma DocumentIsFixpoint(l: Launch, defs: seq<Definition>)
    ensures var doc := Document(l, defs);
            Document(l, Reread(l, defs, doc)) == doc <==> forall name :: !ForeignlyWrapped(l, defs, name)
  {
    var doc := Document(l, defs);
    var again := Document(l, Reread(l, defs, doc));
    forall name
      ensures (name in again <==> name in doc)
              && (name in doc ==> (again[name] == doc[name] <==> !ForeignlyWrapped(l, defs, name)))
              && (ForeignlyWrapped(l, defs, name) ==> name in doc)
    {
      RereadName(l, defs, name);
    }
  }

  /** In particular with no binary, or with one of the runtime's two names. */
  lemma FixpointWithOwnBinary(l: Launch, defs: seq<Definition>)
    requires l.rime.None? || IsCli(l.rime.value)
    ensures var doc := Document(l, defs); Document(l, Reread(l, defs, doc)) == doc
  {
    DocumentIsFixpoint(l, defs);
  }

  lemma OneLetterIsNotCli(path: string)
    requires |path| == 1 && path[0] != '/' && path[0] != '.'
    ensures !IsCli(path)
  {
    assert path[1..] == "" && "" + [path[0]] == path && path != ".";
    assert Components(path, "") == Components("", path) == [path];
    assert |path| != |"rime"| && |path| != |"apex"|;
  }

  lemma OneDefinition(l: Launch, d: Definition)
    requires Keeps(l, d)
    ensures LastKept(l, [d], d.name) == Some(0)
  {
    assert [d][|[d]|-1] == d;
  }

  /** A plugin's program that is wrapped with a binary of another name. */
  predicate WrapsForeignly(l: Launch, d: Definition) {
    && Keeps(l, d) && IsThirdParty(d.origin) && UsableAsServerName(d.name)
    && l.rime.Some? && !IsCli(l.rime.value)
    && WireOf(d.def).Program? && !IsCli(WireOf(d.def).command)
  }

  /** It is wrapped, and curating the document wraps it once more. */
  lemma ForeignBinaryIsNoFixpoint(l: Launch, d: Definition)
    requires WrapsForeignly(l, d)
    ensures var doc := Document(l, [d]); Document(l, Reread(l, [d], doc)) != doc
  {
    OneDefinition(l, d);
    assert ForeignlyWrapped(l, [d], d.name);
    DocumentIsFixpoint(l, [d]);
  }

  /** Such a launch, written out. */
  lemma ForeignBinaryWritten(l: Launch, d: Definition)
    requires l == Launch(Approval({}, {}), AsConfigured, {}, Some("r"))
    requires d == Definition("n", "k", Plugin("p", "f"), Obj(map["command" := Str("c")]))
    ensures WrapsForeignly(l, d)
    ensures var doc := Document(l, [d]); Document(l, Reread(l, [d], doc)) != doc
  {
    OneLetterIsNotCli("r");
    OneLetterIsNotCli("c");
    assert WireOf(d.def) == Program("c", []);
    ForeignBinaryIsNoFixpoint(l, d);
  }
}
