/** The host inventory (src/infra/database.ts): every `*.yaml`/`*.yml` file
    of the inventory directory merged into one insertion-ordered map from
    host name to entry, queried by name and tag, formatted for the agent,
    summarised, and changed one host at a time with the change written back
    to the file the host came from.

    The file system is a map from path to the parsed content of the file
    (YAML text is not modelled); the directory listing is a parameter. */
module Infra {
  import opened Wrappers
  import opened JsText
  import opened OrderedMap

  /** One host as written in an inventory file. */
  datatype Host = Host(
    host: string,
    port: Option<int>,
    user: Option<string>,
    key: Option<string>,
    jump: Option<string>,
    tags: Option<seq<string>>,
    notes: Option<string>)

  /** A host together with the path of the file it was loaded from. */
  datatype HostEntry = HostEntry(host: Host, sourceFile: string)

  /** The parsed document of an inventory file: `hosts` is `None` when the
      key is absent or null, and otherwise lists the entries of the `hosts`
      object in the order they were set; `others` holds the document's other
      top-level keys with their values, which are written back unchanged (a
      null document is `Inventory(None, [])`). */
  datatype Inventory = Inventory(hosts: Option<seq<(string, Host)>>, others: seq<(string, string)>)

  /** What reading and parsing a file yields. */
  datatype FileContent = Unparseable | Parsed(inventory: Inventory)

  /** `path.join(dir, file)` for a plain file name. */
  function PathIn(dir: string, file: string): string {
    dir + "/" + file
  }

  /** The file that hosts added by hand go to. */
  function ManualFile(dir: string): string {
    PathIn(dir, "manual.yaml")
  }

  // ── Loading ────────────────────────────────────────────────────────────

  predicate IsInventoryName(name: string) {
    EndsWith(name, ".yaml") || EndsWith(name, ".yml")
  }

  /** The listing entries that name inventory files, in listing order. */
  function InventoryFiles(listing: seq<string>): (r: seq<string>)
    ensures forall n :: n in r <==> n in listing && IsInventoryName(n)
    ensures multiset(r) <= multiset(listing)
  {
    if listing == [] then []
    else
      var rest := InventoryFiles(listing[1..]);
      assert listing == [listing[0]] + listing[1..];
      if IsInventoryName(listing[0]) then [listing[0]] + rest else rest
  }

  /** The files read, in the order read: the inventory names sorted, none
      when the directory does not exist. */
  function LoadOrder(listing: Option<seq<string>>): (r: seq<string>)
    ensures listing.None? ==> r == []
    ensures SortedAsc(r)
    ensures forall n :: n in r <==> listing.Some? && n in listing.value && IsInventoryName(n)
  {
    match listing
    case None => []
    case Some(names) =>
      var r := Sort(InventoryFiles(names));
      assert forall n :: n in r <==> n in multiset(r);
      r
  }

  /** `Object.entries(inventory.hosts)` for the file at `path`: none when the
      file is missing, cannot be parsed or has no `hosts`. */
  function FileHosts(files: map<string, FileContent>, path: string): seq<(string, Host)> {
    if path in files && files[path].Parsed? && files[path].inventory.hosts.Some?
    then ObjectOrder(files[path].inventory.hosts.value) else []
  }

  /** `{ ...host, _sourceFile: path }` for every host, in order. */
  function Tagged(hs: seq<(string, Host)>, path: string): (r: seq<(string, HostEntry)>)
    ensures |r| == |hs|
    ensures forall i :: 0 <= i < |r| ==> r[i] == (hs[i].0, HostEntry(hs[i].1, path))
  {
    if hs == [] then [] else [(hs[0].0, HostEntry(hs[0].1, path))] + Tagged(hs[1..], path)
  }

  /** The entries a file contributes, tagged with its path. */
  function FileEntries(dir: string, files: map<string, FileContent>, name: string): (r: seq<(string, HostEntry)>)
    ensures forall e :: e in r ==> e.1.sourceFile == PathIn(dir, name)
  {
    var path := PathIn(dir, name);
    Tagged(FileHosts(files, path), path)
  }

  /** The entries of every file, in reading order. */
  function Batches(dir: string, files: map<string, FileContent>, names: seq<string>): (bs: seq<seq<(string, HostEntry)>>)
    ensures |bs| == |names|
  {
    if names == [] then [] else [FileEntries(dir, files, names[0])] + Batches(dir, files, names[1..])
  }

  /** Batch `i` holds the entries of file `i`. */
  lemma {:induction false} BatchesAt(dir: string, files: map<string, FileContent>, names: seq<string>, i: nat)
    requires i < |names|
    ensures Batches(dir, files, names)[i] == FileEntries(dir, files, names[i])
  {
    if i > 0 {
      BatchesAt(dir, files, names[1..], i - 1);
    }
  }

  /** Setting every entry of `es` in turn. */
  function SetAll<V>(m: seq<(string, V)>, es: seq<(string, V)>): seq<(string, V)>
    decreases |es|
  {
    if es == [] then m else Put(SetAll(m, es[..|es| - 1]), es[|es| - 1].0, es[|es| - 1].1)
  }

  /** Setting every entry of every batch in turn. */
  function SetBatches<V>(m: seq<(string, V)>, bs: seq<seq<(string, V)>>): seq<(string, V)>
    decreases |bs|
  {
    if bs == [] then m else SetAll(SetBatches(m, bs[..|bs| - 1]), bs[|bs| - 1])
  }

  /** The value of the last entry for `k` in `es`. */
  function LastValue<V>(es: seq<(string, V)>, k: string): (r: Option<V>)
    ensures r.Some? ==> (k, r.value) in es
    decreases |es|
  {
    if es == [] then None
    else if es[|es| - 1].0 == k then Some(es[|es| - 1].1)
    else LastValue(es[..|es| - 1], k)
  }

  /** The value of the last entry for `k` in the last batch that has one. */
  function LastIn<V>(bs: seq<seq<(string, V)>>, k: string): Option<V>
    decreases |bs|
  {
    if bs == [] then None
    else
      var v := LastValue(bs[|bs| - 1], k);
      if v.Some? then v else LastIn(bs[..|bs| - 1], k)
  }

  /** `LastIn` is absent exactly when no batch has the key. */
  lemma {:induction false} LastInNone<V>(bs: seq<seq<(string, V)>>, k: string)
    ensures LastIn(bs, k).None? <==> forall i :: 0 <= i < |bs| ==> LastValue(bs[i], k).None?
    decreases |bs|
  {
    if bs != [] {
      var last := |bs| - 1;
      LastInNone(bs[..last], k);
      assert forall i :: 0 <= i < last ==> bs[..last][i] == bs[i];
    }
  }

  /** A present `LastIn` is the last value in some batch after which no
      batch has the key. */
  lemma {:induction false} LastInSome<V>(bs: seq<seq<(string, V)>>, k: string) returns (i: nat)
    requires LastIn(bs, k).Some?
    ensures i < |bs| && LastIn(bs, k) == LastValue(bs[i], k)
    ensures forall j :: i < j < |bs| ==> LastValue(bs[j], k).None?
    decreases |bs|
  {
    var last := |bs| - 1;
    if LastValue(bs[last], k).Some? {
      i := last;
    } else {
      var front := bs[..last];
      i := LastInSome(front, k);
      assert front[i] == bs[i];
      forall j | i < j < |bs| ensures LastValue(bs[j], k).None? {
        if j < last {
          assert front[j] == bs[j];
        }
      }
    }
  }

  lemma {:induction false} SetAllGet<V>(m: seq<(string, V)>, es: seq<(string, V)>, k: string)
    ensures Get(SetAll(m, es), k) == if LastValue(es, k).Some? then LastValue(es, k) else Get(m, k)
    decreases |es|
  {
    if es != [] {
      var last := |es| - 1;
      PutGet(SetAll(m, es[..last]), es[last].0, es[last].1, k);
      SetAllGet(m, es[..last], k);
    }
  }

  lemma {:induction false} SetBatchesGet<V>(bs: seq<seq<(string, V)>>, k: string)
    ensures Get(SetBatches([], bs), k) == LastIn(bs, k)
    decreases |bs|
  {
    if bs != [] {
      SetAllGet(SetBatches([], bs[..|bs| - 1]), bs[|bs| - 1], k);
      SetBatchesGet(bs[..|bs| - 1], k);
    }
  }

  lemma {:induction false} SetAllDistinct<V>(m: seq<(string, V)>, es: seq<(string, V)>)
    requires DistinctKeys(m)
    ensures DistinctKeys(SetAll(m, es))
    decreases |es|
  {
    if es != [] {
      SetAllDistinct(m, es[..|es| - 1]);
      PutDistinct(SetAll(m, es[..|es| - 1]), es[|es| - 1].0, es[|es| - 1].1);
    }
  }

  lemma {:induction false} SetBatchesDistinct<V>(bs: seq<seq<(string, V)>>)
    ensures DistinctKeys(SetBatches([], bs))
    decreases |bs|
  {
    if bs != [] {
      SetBatchesDistinct(bs[..|bs| - 1]);
      SetAllDistinct(SetBatches([], bs[..|bs| - 1]), bs[|bs| - 1]);
    }
  }

  /** The database after reading the files `names` in order. */
  function Loaded(dir: string, files: map<string, FileContent>, names: seq<string>): (r: seq<(string, HostEntry)>)
    ensures DistinctKeys(r)
  {
    SetBatchesDistinct(Batches(dir, files, names));
    SetBatches([], Batches(dir, files, names))
  }

  /** The loaded entry for a name is absent exactly when no file defines it. */
  lemma LoadedAbsent(dir: string, files: map<string, FileContent>, names: seq<string>, k: string)
    ensures Get(Loaded(dir, files, names), k).None? <==>
      forall i :: 0 <= i < |names| ==> LastValue(FileEntries(dir, files, names[i]), k).None?
  {
    var bs := Batches(dir, files, names);
    SetBatchesGet(bs, k);
    LastInNone(bs, k);
    forall i | 0 <= i < |names| ensures bs[i] == FileEntries(dir, files, names[i]) {
      BatchesAt(dir, files, names, i);
    }
  }

  /** Last file wins: a loaded entry is the last definition in the last file
      that defines the name, tagged with that file's path. */
  lemma LoadedLastWins(dir: string, files: map<string, FileContent>, names: seq<string>, k: string)
    ensures Get(Loaded(dir, files, names), k).Some? ==>
      exists i :: 0 <= i < |names| && Get(Loaded(dir, files, names), k) == LastValue(FileEntries(dir, files, names[i]), k) &&
        Get(Loaded(dir, files, names), k).value.sourceFile == PathIn(dir, names[i]) &&
        forall j :: i < j < |names| ==> LastValue(FileEntries(dir, files, names[j]), k).None?
  {
    var bs := Batches(dir, files, names);
    SetBatchesGet(bs, k);
    var r := Get(Loaded(dir, files, names), k);
    if r.Some? {
      var i := LastInSome(bs, k);
      forall j | i <= j < |names| ensures bs[j] == FileEntries(dir, files, names[j]) {
        BatchesAt(dir, files, names, j);
      }
      assert (k, r.value) in FileEntries(dir, files, names[i]);
    }
  }

  /** `loadInfraDatabase`'s loop: every file in order, every host of a file
      in order, each `set` into the map. */
  method LoadHosts(dir: string, files: map<string, FileContent>, names: seq<string>)
    returns (hosts: seq<(string, HostEntry)>)
    ensures hosts == Loaded(dir, files, names)
  {
    ghost var bs := Batches(dir, files, names);
    hosts := [];
    var i := 0;
    while i < |names|
      invariant 0 <= i <= |names|
      invariant hosts == SetBatches([], bs[..i])
    {
      hosts := SetEntries(hosts, FileEntries(dir, files, names[i]));
      BatchesAt(dir, files, names, i);
      SetBatchesStep([], bs, i);
      i := i + 1;
    }
    assert bs[..i] == bs;
  }

  /** One more batch of the fold. */
  lemma SetBatchesStep<V>(m: seq<(string, V)>, bs: seq<seq<(string, V)>>, i: nat)
    requires i < |bs|
    ensures SetBatches(m, bs[..i + 1]) == SetAll(SetBatches(m, bs[..i]), bs[i])
  {
    assert bs[..i + 1][..i] == bs[..i];
  }

  /** One more entry of the fold. */
  lemma SetAllStep<V>(m: seq<(string, V)>, es: seq<(string, V)>, j: nat)
    requires j < |es|
    ensures SetAll(m, es[..j + 1]) == Put(SetAll(m, es[..j]), es[j].0, es[j].1)
  {
    assert es[..j + 1][..j] == es[..j];
  }

  /** The inner loop: `db.hosts.set(name, entry)` for each entry of a file. */
  method SetEntries(m: seq<(string, HostEntry)>, es: seq<(string, HostEntry)>) returns (r: seq<(string, HostEntry)>)
    ensures r == SetAll(m, es)
  {
    r := m;
    var j := 0;
    while j < |es|
      invariant 0 <= j <= |es|
      invariant r == SetAll(m, es[..j])
    {
      SetAllStep(m, es, j);
      r := Put(r, es[j].0, es[j].1);
      j := j + 1;
    }
    assert es[..j] == es;
  }

  // ── Query ──────────────────────────────────────────────────────────────

  /** `{ name?, tag? }`; an absent or empty field does not filter. */
  datatype HostFilter = HostFilter(name: Option<string>, tag: Option<string>)

  predicate Matches(f: HostFilter, name: string, e: HostEntry) {
    (Truthy(f.name) ==> Contains(Lower(name), Lower(f.name.value))) &&
    (Truthy(f.tag) ==> e.host.tags.Some? && f.tag.value in e.host.tags.value)
  }

  /** `queryHosts`: the entries that match, unchanged and in map order. */
  function QueryHosts(hosts: seq<(string, HostEntry)>, f: HostFilter): (r: seq<(string, HostEntry)>)
    ensures forall x :: x in r <==> x in hosts && Matches(f, x.0, x.1)
    ensures Sublist(r, hosts)
    ensures !Truthy(f.name) && !Truthy(f.tag) ==> r == hosts
  {
    if hosts == [] then []
    else
      var rest := QueryHosts(hosts[1..], f);
      assert hosts == [hosts[0]] + hosts[1..];
      if Matches(f, hosts[0].0, hosts[0].1) then
        assert ([hosts[0]] + rest)[1..] == rest;
        [hosts[0]] + rest
      else rest
  }

  /** A sub-list of a map is a map. */
  lemma {:induction false} SublistDistinct<V>(a: seq<(string, V)>, b: seq<(string, V)>)
    requires Sublist(a, b) && DistinctKeys(b)
    ensures DistinctKeys(a)
    ensures forall k :: k in Keys(a) ==> k in Keys(b)
    decreases |b|
  {
    if a != [] {
      assert DistinctKeys(b[1..]);
      if a[0] == b[0] && Sublist(a[1..], b[1..]) {
        SublistDistinct(a[1..], b[1..]);
        assert Keys(a) == [a[0].0] + Keys(a[1..]);
        assert Keys(b) == [b[0].0] + Keys(b[1..]);
        assert b[0].0 !in Keys(b[1..]);
      } else {
        SublistDistinct(a, b[1..]);
        assert Keys(b) == [b[0].0] + Keys(b[1..]);
      }
    }
  }

  /** A query result is itself a map whose entries are the database's own. */
  lemma QueryEntries(hosts: seq<(string, HostEntry)>, f: HostFilter, k: string)
    requires DistinctKeys(hosts)
    ensures DistinctKeys(QueryHosts(hosts, f))
    ensures Get(QueryHosts(hosts, f), k) == if Get(hosts, k).Some? && Matches(f, k, Get(hosts, k).value) then Get(hosts, k) else None
  {
    var r := QueryHosts(hosts, f);
    SublistDistinct(r, hosts);
    var g := Get(r, k);
    if g.Some? {
      var i :| 0 <= i < |hosts| && hosts[i] == (k, g.value);
      GetAt(hosts, i);
    }
  }

  // ── Formatting ─────────────────────────────────────────────────────────

  /** The port line is printed for a set port other than 0 and 22. */
  predicate PortShown(port: Option<int>) {
    port.Some? && port.value != 0 && port.value != 22
  }

  predicate TagsShown(tags: Option<seq<string>>) {
    tags.Some? && tags.value != []
  }

  function PortPart(h: Host): seq<string> {
    if PortShown(h.port) then ["  port: " + IntToString(h.port.value)] else []
  }

  function TagsPart(h: Host): seq<string> {
    if TagsShown(h.tags) then ["  tags: [" + Join(h.tags.value, ", ") + "]"] else []
  }

  function FieldPart(field: string, v: Option<string>): seq<string> {
    if Truthy(v) then ["  " + field + ": " + v.value] else []
  }

  function NotesPart(h: Host): seq<string> {
    if Truthy(h.notes) then ["  notes: \"" + h.notes.value + "\""] else []
  }

  /** The indented field lines of one host, in the fixed field order. */
  function HostLines(h: Host): seq<string> {
    ["  host: " + h.host] + PortPart(h) + FieldPart("user", h.user) + FieldPart("key", h.key) +
    FieldPart("jump", h.jump) + TagsPart(h) + NotesPart(h)
  }

  function HostBlock(name: string, e: HostEntry): string {
    name + ":\n" + Join(HostLines(e.host), "\n")
  }

  /** `formatHosts`: one block per host, separated by a blank line. */
  function FormatHosts(hosts: seq<(string, HostEntry)>): (r: string)
    ensures hosts == [] <==> r == "No hosts found."
  {
    if hosts == [] then "No hosts found."
    else
      var blocks := seq(|hosts|, i requires 0 <= i < |hosts| => HostBlock(hosts[i].0, hosts[i].1));
      var r := Join(blocks, "\n\n");
      JoinStarts(blocks, "\n\n");
      var n := |hosts[0].0| + 1;
      assert r[n] == blocks[0][n] == '\n';
      assert r != "No hosts found." by {
        if n < 15 {
          assert "No hosts found."[n] != '\n';
        }
      }
      r
  }

  lemma JoinStarts(parts: seq<string>, sep: string)
    requires |parts| >= 1
    ensures StartsWith(Join(parts, sep), parts[0])
  {
  }

  /** The text for a host followed by more hosts is that host's block, then
      a blank line and the text for the others, in order; a single host is
      its block alone. */
  lemma FormatHostsCons(h: (string, HostEntry), rest: seq<(string, HostEntry)>)
    ensures FormatHosts([h] + rest) ==
              HostBlock(h.0, h.1) + (if rest == [] then "" else "\n\n" + FormatHosts(rest))
  {
    var hosts := [h] + rest;
    var blocks := seq(|hosts|, i requires 0 <= i < |hosts| => HostBlock(hosts[i].0, hosts[i].1));
    var tail := seq(|rest|, i requires 0 <= i < |rest| => HostBlock(rest[i].0, rest[i].1));
    assert blocks[1..] == tail;
    assert blocks[0] == HostBlock(h.0, h.1);
    if rest != [] {
      assert Join(blocks, "\n\n") == blocks[0] + "\n\n" + Join(tail, "\n\n");
    }
  }

  /** A host's block opens with its name, a colon and its address line. */
  lemma HostBlockHead(name: string, e: HostEntry)
    ensures StartsWith(HostBlock(name, e), name + ":\n  host: " + e.host.host)
  {
    var lines := HostLines(e.host);
    JoinStarts(lines, "\n");
    var j := Join(lines, "\n");
    var head := "  host: " + e.host.host;
    assert j[..|head|] == head;
    assert (name + ":\n" + j)[..|name + ":\n" + head|] == name + ":\n" + head;
  }

  /** When neither the name nor any field holds a newline, the lines of a
      block are the name with a colon, then the host's field lines. */
  lemma HostBlockLines(name: string, e: HostEntry)
    requires '\n' !in name
    requires forall l :: l in HostLines(e.host) ==> '\n' !in l
    ensures Split(HostBlock(name, e), '\n') == [name + ":"] + HostLines(e.host)
  {
    var lines := HostLines(e.host);
    JoinConcat([name + ":"], lines, "\n");
    assert Join([name + ":"], "\n") == name + ":";
    assert HostBlock(name, e) == Join([name + ":"] + lines, "\n");
    forall p | p in [name + ":"] + lines
      ensures '\n' !in p
    {
      if p !in lines {
        assert p == name + ":";
      }
    }
    SplitJoin([name + ":"] + lines, '\n');
  }

  /** The third character of each line names its field, so a line with `p`
      there is the port line and one with `t` there is the tags line. */
  lemma LineLabel(h: Host, l: string)
    requires l in HostLines(h)
    ensures |l| > 2
    ensures l[2] == 'p' ==> l in PortPart(h)
    ensures l[2] == 't' ==> l in TagsPart(h)
  {
    if l == "  host: " + h.host {
      assert l[2] == 'h';
    } else if l in FieldPart("user", h.user) {
      assert l[2] == 'u';
    } else if l in FieldPart("key", h.key) {
      assert l[2] == 'k';
    } else if l in FieldPart("jump", h.jump) {
      assert l[2] == 'j';
    } else if l in NotesPart(h) {
      assert l[2] == 'n';
    } else if l in PortPart(h) {
      assert l[2] == 'p';
    } else {
      assert l in TagsPart(h);
      assert l[2] == 't';
    }
  }

  lemma PrefixChar(s: string, prefix: string, i: nat)
    requires StartsWith(s, prefix) && i < |prefix|
    ensures s[i] == prefix[i]
  {
    assert s[..|prefix|][i] == s[i];
  }

  /** Only the port line starts with the port label. */
  lemma {:induction false} OnlyPortLine(h: Host, l: string)
    requires l in HostLines(h) && StartsWith(l, "  port: ")
    ensures l in PortPart(h)
  {
    LineLabel(h, l);
    PrefixChar(l, "  port: ", 2);
  }

  /** The port line is shown exactly when the port is set and is neither 0
      nor 22, and then shows that port. */
  lemma PortLine(h: Host)
    ensures (exists l :: l in HostLines(h) && StartsWith(l, "  port: ")) <==> PortShown(h.port)
    ensures PortShown(h.port) ==> "  port: " + IntToString(h.port.value) in HostLines(h)
  {
    if l :| l in HostLines(h) && StartsWith(l, "  port: ") {
      OnlyPortLine(h, l);
    }
    if PortShown(h.port) {
      var l := "  port: " + IntToString(h.port.value);
      assert l in PortPart(h);
      assert l in HostLines(h);
      assert l[..8] == "  port: ";
      assert StartsWith(l, "  port: ");
    }
  }

  /** Only the tags line starts with the tags label. */
  lemma {:induction false} OnlyTagsLine(h: Host, l: string)
    requires l in HostLines(h) && StartsWith(l, "  tags: ")
    ensures l in TagsPart(h)
  {
    LineLabel(h, l);
    PrefixChar(l, "  tags: ", 2);
  }

  /** The tags line is shown exactly when the host has at least one tag, and
      then lists the tags in order. */
  lemma TagsLine(h: Host)
    ensures (exists l :: l in HostLines(h) && StartsWith(l, "  tags: ")) <==> TagsShown(h.tags)
    ensures TagsShown(h.tags) ==> "  tags: [" + Join(h.tags.value, ", ") + "]" in HostLines(h)
  {
    if l :| l in HostLines(h) && StartsWith(l, "  tags: ") {
      OnlyTagsLine(h, l);
    }
    if TagsShown(h.tags) {
      var l := "  tags: [" + Join(h.tags.value, ", ") + "]";
      assert l in TagsPart(h);
      assert l in HostLines(h);
      assert l[..8] == "  tags: ";
      assert StartsWith(l, "  tags: ");
    }
  }

  // ── Summary ────────────────────────────────────────────────────────────

  /** Every tag of every host, in map order. */
  function AllTags(hosts: seq<(string, HostEntry)>): seq<string> {
    if hosts == [] then [] else hosts[0].1.host.tags.GetOr([]) + AllTags(hosts[1..])
  }

  lemma {:induction false} AllTagsSpec(hosts: seq<(string, HostEntry)>, t: string)
    ensures t in AllTags(hosts) <==> exists i :: 0 <= i < |hosts| && HasTag(hosts[i].1, t)
  {
    if hosts != [] {
      AllTagsSpec(hosts[1..], t);
      assert forall i :: 1 <= i < |hosts| ==> hosts[i] == hosts[1..][i - 1];
      if t in AllTags(hosts[1..]) {
        var i :| 0 <= i < |hosts| - 1 && HasTag(hosts[1..][i].1, t);
        assert HasTag(hosts[i + 1].1, t);
      }
    }
  }

  predicate HasTag(e: HostEntry, t: string) {
    e.host.tags.Some? && t in e.host.tags.value
  }

  /** The distinct tags, sorted. */
  function TagList(hosts: seq<(string, HostEntry)>): seq<string> {
    Sort(Distinct(AllTags(hosts)))
  }

  /** `summarizeInfra`: `null` for an empty database, otherwise the host count
      and the tag list. */
  function SummarizeInfra(hosts: seq<(string, HostEntry)>): (r: Option<string>)
    ensures r.None? <==> hosts == []
  {
    if hosts == [] then None else Some(SummaryText(|hosts|, TagList(hosts)))
  }

  /** `${size} host${size === 1 ? '' : 's'}${tagList}` */
  function SummaryText(size: nat, tags: seq<string>): string {
    var tagList := if tags != [] then " (tags: " + Join(tags, ", ") + ")" else "";
    NatToString(size) + " host" + (if size == 1 then "" else "s") + tagList
  }

  /** The summary's tag list holds every tag of every host exactly once, in
      ascending order. */
  lemma TagListSpec(hosts: seq<(string, HostEntry)>)
    ensures var tags := TagList(hosts);
      (forall t :: t in tags <==> exists i :: 0 <= i < |hosts| && HasTag(hosts[i].1, t)) &&
      (forall i, j :: 0 <= i < j < |tags| ==> Less(tags[i], tags[j]))
  {
    var d := Distinct(AllTags(hosts));
    var tags := Sort(d);
    assert forall t :: t in tags <==> t in multiset(tags);
    assert forall t :: t in d <==> t in multiset(d);
    forall t ensures t in AllTags(hosts) <==> exists i :: 0 <= i < |hosts| && HasTag(hosts[i].1, t) {
      AllTagsSpec(hosts, t);
    }
    forall i, j | 0 <= i < j < |tags| ensures tags[i] != tags[j] {
      if tags[i] == tags[j] {
        TwiceCounted(tags, i, j);
        DistinctOnce(d, tags[i]);
      }
    }
    SortedDistinctStrict(tags);
  }

  lemma TwiceCounted(s: seq<string>, i: nat, j: nat)
    requires i < j < |s| && s[i] == s[j]
    ensures multiset(s)[s[i]] >= 2
  {
    assert s == s[..j] + s[j..];
    assert s[i] in s[..j];
    assert s[j] in s[j..];
  }

  lemma {:induction false} DistinctOnce(s: seq<string>, x: string)
    requires forall i, j :: 0 <= i < j < |s| ==> s[i] != s[j]
    ensures multiset(s)[x] <= 1
  {
    if s != [] {
      assert s == [s[0]] + s[1..];
      DistinctOnce(s[1..], x);
      if s[0] == x {
        assert x !in s[1..];
      }
    }
  }

  /** The summary starts with the host count and "host" or "hosts". */
  lemma SummaryCount(hosts: seq<(string, HostEntry)>)
    requires hosts != []
    ensures StartsWith(SummarizeInfra(hosts).value, NatToString(|hosts|) + (if |hosts| == 1 then " host" else " hosts"))
  {
    TextCount(|hosts|, TagList(hosts));
  }

  lemma TextCount(size: nat, tags: seq<string>)
    ensures StartsWith(SummaryText(size, tags), NatToString(size) + (if size == 1 then " host" else " hosts"))
  {
    var head := NatToString(size) + (if size == 1 then " host" else " hosts");
    var tail := if tags != [] then " (tags: " + Join(tags, ", ") + ")" else "";
    assert SummaryText(size, tags) == head + tail;
    assert (head + tail)[..|head|] == head;
  }

  /** The text ends in ')' exactly when there is a tag list. */
  lemma TextTags(size: nat, tags: seq<string>)
    ensures var s := SummaryText(size, tags);
      s[|s| - 1] == ')' <==> tags != []
  {
    var s := SummaryText(size, tags);
    var head := NatToString(size) + (if size == 1 then " host" else " hosts");
    if tags != [] {
      var tail := " (tags: " + Join(tags, ", ") + ")";
      assert s == head + tail;
      assert s[|s| - 1] == tail[|tail| - 1];
    } else {
      assert s == head;
      assert s[|s| - 1] == head[|head| - 1];
    }
  }

  /** The summary ends with the closing parenthesis of the tag suffix exactly
      when some host has a tag. */
  lemma SummaryTags(hosts: seq<(string, HostEntry)>)
    requires hosts != []
    ensures var s := SummarizeInfra(hosts).value;
      s[|s| - 1] == ')' <==> exists i, t :: 0 <= i < |hosts| && HasTag(hosts[i].1, t)
  {
    TagListSpec(hosts);
    TextTags(|hosts|, TagList(hosts));
    var tags := TagList(hosts);
    if tags != [] {
      assert tags[0] in tags;
    } else {
      forall i, t | 0 <= i < |hosts| ensures !HasTag(hosts[i].1, t) {
        assert t !in tags;
      }
    }
  }

  // ── Write-back ─────────────────────────────────────────────────────────

  /** `readInventoryFile`: a missing, unparseable or null file reads as an
      empty inventory. */
  function ReadInventory(files: map<string, FileContent>, path: string): (r: Inventory)
    ensures path !in files || files[path].Unparseable? ==> r == Inventory(None, [])
  {
    if path in files && files[path].Parsed? then files[path].inventory else Inventory(None, [])
  }

  /** `inventory.hosts[name] = host`, creating `hosts` when absent. */
  function WithHost(inv: Inventory, name: string, host: Host): Inventory {
    inv.(hosts := Some(Put(inv.hosts.GetOr([]), name, host)))
  }

  /** `delete inventory.hosts[name]`, dropping `hosts` once it is empty. */
  function WithoutHost(inv: Inventory, name: string): Inventory {
    match inv.hosts
    case None => inv
    case Some(hs) =>
      var rest := Remove(hs, name);
      inv.(hosts := if rest == [] then None else Some(rest))
  }

  /** The database and the files together. */
  datatype Store = Store(hosts: seq<(string, HostEntry)>, files: map<string, FileContent>)

  /** `addHost`: no existence check; the host goes into the manual file and
      replaces any entry of that name. */
  function Added(s: Store, dir: string, name: string, host: Host): Store {
    var m := ManualFile(dir);
    Store(Put(s.hosts, name, HostEntry(host, m)), s.files[m := Parsed(WithHost(ReadInventory(s.files, m), name, host))])
  }

  function NotFound(name: string): string {
    "Host '" + name + "' not found"
  }

  /** `updateHost`: the host is replaced where it was defined. */
  function Updated(s: Store, name: string, host: Host): Result<Store> {
    match Get(s.hosts, name)
    case None => Fail(NotFound(name))
    case Some(e) =>
      var path := e.sourceFile;
      Ok(Store(Put(s.hosts, name, HostEntry(host, path)),
               s.files[path := Parsed(WithHost(ReadInventory(s.files, path), name, host))]))
  }

  /** `removeHost`: the host leaves the database and its file; the manual
      file is deleted instead of written when it has no hosts left. */
  function Removed(s: Store, dir: string, name: string): Result<Store> {
    match Get(s.hosts, name)
    case None => Fail(NotFound(name))
    case Some(e) =>
      var path := e.sourceFile;
      var inv := WithoutHost(ReadInventory(s.files, path), name);
      var files := if inv.hosts.None? && path == ManualFile(dir) then s.files - {path} else s.files[path := Parsed(inv)];
      Ok(Store(Remove(s.hosts, name), files))
  }

  /** The hosts an inventory document holds, none when it has no `hosts`. */
  function InventoryHost(inv: Inventory, name: string): Option<Host> {
    if inv.hosts.Some? then Get(inv.hosts.value, name) else None
  }

  /** Whether a removal that succeeds writes or deletes a file: it does
      neither only when it would delete the manual file and that file does
      not exist. */
  function RemoveTouchesDisk(s: Store, dir: string, name: string): bool {
    match Get(s.hosts, name)
    case None => false
    case Some(e) =>
      var path := e.sourceFile;
      path in s.files || !(WithoutHost(ReadInventory(s.files, path), name).hosts.None? && path == ManualFile(dir))
  }

  /** A change whose file write or deletion fails with the file system's
      error `ioError` throws that error before the database is updated, so
      nothing changes; `None` is a file system that succeeds. */
  function Committed(r: Result<Store>, touchesDisk: bool, ioError: Option<string>): Result<Store> {
    if r.Ok? && touchesDisk && ioError.Some? then Fail(ioError.value) else r
  }

  /** The other files are left as they were. */
  ghost predicate OthersKept(before: map<string, FileContent>, after: map<string, FileContent>, path: string) {
    forall p :: p != path ==> (p in after <==> p in before) && (p in before ==> after[p] == before[p])
  }

  /** The written document keeps the other hosts of the file and its other
      top-level keys. */
  predicate DocumentKept(before: Inventory, after: Inventory, name: string, k: string) {
    (k != name ==> InventoryHost(after, k) == InventoryHost(before, k)) && after.others == before.others
  }

  /** After an add the name maps to the host in the manual file, every other
      name is unchanged, the manual file defines the host and keeps the rest
      of its document, and no other file changes. */
  lemma AddedSpec(s: Store, dir: string, name: string, host: Host, k: string)
    ensures var a := Added(s, dir, name, host);
      Get(a.hosts, k) == (if k == name then Some(HostEntry(host, ManualFile(dir))) else Get(s.hosts, k)) &&
      a.files[ManualFile(dir)].Parsed? &&
      InventoryHost(a.files[ManualFile(dir)].inventory, name) == Some(host) &&
      DocumentKept(ReadInventory(s.files, ManualFile(dir)), a.files[ManualFile(dir)].inventory, name, k) &&
      OthersKept(s.files, a.files, ManualFile(dir))
  {
    var m := ManualFile(dir);
    var inv := ReadInventory(s.files, m);
    var hs := inv.hosts.GetOr([]);
    var a := Added(s, dir, name, host);
    assert a.files == s.files[m := Parsed(WithHost(inv, name, host))];
    PutGet(s.hosts, name, HostEntry(host, m), k);
    PutGet(hs, name, host, name);
    PutGet(hs, name, host, k);
    assert InventoryHost(WithHost(inv, name, host), k) == Get(Put(hs, name, host), k);
  }

  /** An update fails exactly for an unknown name, with the source's message;
      otherwise the entry keeps its source file, that file gets the host and
      keeps the rest of its document, and no other name or file changes. */
  lemma UpdatedSpec(s: Store, name: string, host: Host, k: string)
    ensures Updated(s, name, host).Fail? <==> name !in Keys(s.hosts)
    ensures Updated(s, name, host).Fail? ==> Updated(s, name, host).message == "Host '" + name + "' not found"
    ensures Updated(s, name, host).Ok? ==>
      var u := Updated(s, name, host).value;
      var path := Get(s.hosts, name).value.sourceFile;
      Get(u.hosts, k) == (if k == name then Some(HostEntry(host, path)) else Get(s.hosts, k)) &&
      Keys(u.hosts) == Keys(s.hosts) &&
      u.files[path].Parsed? && InventoryHost(u.files[path].inventory, name) == Some(host) &&
      DocumentKept(ReadInventory(s.files, path), u.files[path].inventory, name, k) &&
      OthersKept(s.files, u.files, path)
  {
    if name in Keys(s.hosts) {
      var e := Get(s.hosts, name).value;
      var hs := ReadInventory(s.files, e.sourceFile).hosts.GetOr([]);
      PutGet(s.hosts, name, HostEntry(host, e.sourceFile), k);
      PutKeys(s.hosts, name, HostEntry(host, e.sourceFile));
      PutGet(hs, name, host, name);
      PutGet(hs, name, host, k);
    }
  }

  /** A removal fails exactly for an unknown name, with the source's message;
      otherwise the name is gone from the database and from its file, every
      other name is unchanged, the file keeps the rest of its document, it is
      deleted only when it is the manual file and has no hosts left, and no
      other file changes. */
  lemma RemovedSpec(s: Store, dir: string, name: string, k: string)
    ensures Removed(s, dir, name).Fail? <==> name !in Keys(s.hosts)
    ensures Removed(s, dir, name).Fail? ==> Removed(s, dir, name).message == "Host '" + name + "' not found"
    ensures Removed(s, dir, name).Ok? ==>
      var u := Removed(s, dir, name).value;
      var path := Get(s.hosts, name).value.sourceFile;
      Get(u.hosts, k) == (if k == name then None else Get(s.hosts, k)) &&
      (path !in u.files <==> (path == ManualFile(dir) && WithoutHost(ReadInventory(s.files, path), name).hosts.None?)) &&
      (path in u.files ==>
         u.files[path].Parsed? && InventoryHost(u.files[path].inventory, name).None? &&
         DocumentKept(ReadInventory(s.files, path), u.files[path].inventory, name, k)) &&
      OthersKept(s.files, u.files, path)
  {
    if name in Keys(s.hosts) {
      RemoveGet(s.hosts, name, k);
      var inv := ReadInventory(s.files, Get(s.hosts, name).value.sourceFile);
      if inv.hosts.Some? {
        RemoveGet(inv.hosts.value, name, name);
        RemoveGet(inv.hosts.value, name, k);
      }
    }
  }

  /** Adding a host and then removing it gives back the database without that
      name; when there was no manual file before, it is gone again. */
  lemma AddThenRemove(s: Store, dir: string, name: string, host: Host, k: string)
    ensures var a := Added(s, dir, name, host);
      Removed(a, dir, name).Ok? &&
      Get(Removed(a, dir, name).value.hosts, k) == (if k == name then None else Get(s.hosts, k)) &&
      (ManualFile(dir) !in s.files ==> Removed(a, dir, name).value.files == s.files)
  {
    var m := ManualFile(dir);
    var a := Added(s, dir, name, host);
    PutGet(s.hosts, name, HostEntry(host, m), name);
    assert Get(a.hosts, name) == Some(HostEntry(host, m));
    var u := Removed(a, dir, name);
    assert u.Ok?;
    assert u.value.hosts == Remove(a.hosts, name);
    RemoveGet(a.hosts, name, k);
    PutGet(s.hosts, name, HostEntry(host, m), k);
    if m !in s.files {
      ghost var inv0 := ReadInventory(s.files, m);
      var inv := ReadInventory(a.files, m);
      assert inv == Inventory(Some(Put([], name, host)), []);
      assert Put([], name, host) == [(name, host)];
      assert Remove([(name, host)], name) == [];
      assert WithoutHost(inv, name) == Inventory(None, []);
      assert Get(a.hosts, name).value.sourceFile == m;
      assert u.value.files == a.files - {m};
      DropAdded(s.files, m, Parsed(WithHost(inv0, name, host)));
    }
  }

  /** Removing a key just added to a map that lacked it gives the map back. */
  lemma DropAdded(f: map<string, FileContent>, k: string, v: FileContent)
    requires k !in f
    ensures f[k := v] - {k} == f
  {
  }

  /** `previewYaml`: a fixed text for a removal; otherwise a labelled
      serialisation (`stringify` stands for the YAML serialiser). */
  function PreviewYaml(action: string, name: string, data: Option<Host>, stringify: (string, Option<Host>) -> string): string {
    if action == "remove" then "# Remove host:\nhosts:\n  " + name + ": ~ # (will be deleted)"
    else
      var heading := if action == "add" then "Add new host" else "Update host";
      "# " + heading + ":\n" + stringify(name, data)
  }

  /** A removal's preview depends on the name only; every other preview is a
      comment line followed by the serialisation of the host under its name. */
  lemma PreviewShape(action: string, name: string, data: Option<Host>, stringify: (string, Option<Host>) -> string,
                     data': Option<Host>, stringify': (string, Option<Host>) -> string)
    ensures action == "remove" ==> PreviewYaml(action, name, data, stringify) == PreviewYaml(action, name, data', stringify')
    ensures action != "remove" ==>
      (var p := PreviewYaml(action, name, data, stringify);
       var y := stringify(name, data);
       |p| > |y| && p[|p| - |y|..] == y && StartsWith(p, "# ") && p[|p| - |y| - 1] == '\n')
  {
    if action != "remove" {
      var heading := if action == "add" then "Add new host" else "Update host";
      var p := PreviewYaml(action, name, data, stringify);
      var y := stringify(name, data);
      assert p == ("# " + heading + ":\n") + y;
    }
  }

  /** The preview's first line tells the three actions apart: "Add new
      host" exactly for an add, "Remove host" exactly for a removal, with
      the fixed deletion text naming the host, and "Update host" for every
      other action. */
  lemma PreviewLabel(action: string, name: string, data: Option<Host>, stringify: (string, Option<Host>) -> string)
    ensures var p := PreviewYaml(action, name, data, stringify);
            (StartsWith(p, "# Add new host:\n") <==> action == "add") &&
            (StartsWith(p, "# Update host:\n") <==> action != "add" && action != "remove") &&
            (StartsWith(p, "# Remove host:\n") <==> action == "remove")
    ensures action == "remove" ==>
              PreviewYaml(action, name, data, stringify) == "# Remove host:\nhosts:\n  " + name + ": ~ # (will be deleted)"
  {
    var p := PreviewYaml(action, name, data, stringify);
    if action == "remove" {
      RemoveLabel(name);
    } else {
      var heading := if action == "add" then "Add new host" else "Update host";
      assert p == "# " + heading + ":\n" + stringify(name, data);
      OtherLabel(action == "add", stringify(name, data));
    }
  }

  lemma RemoveLabel(name: string)
    ensures var p := "# Remove host:\nhosts:\n  " + name + ": ~ # (will be deleted)";
            StartsWith(p, "# Remove host:\n") && !StartsWith(p, "# Add new host:\n") && !StartsWith(p, "# Update host:\n")
  {
    var p := "# Remove host:\nhosts:\n  " + name + ": ~ # (will be deleted)";
    assert p[..15] == "# Remove host:\n";
    assert p[2] == 'R';
  }

  lemma OtherLabel(add: bool, y: string)
    ensures var p := "# " + (if add then "Add new host" else "Update host") + ":\n" + y;
            (StartsWith(p, "# Add new host:\n") <==> add) &&
            (StartsWith(p, "# Update host:\n") <==> !add) &&
            !StartsWith(p, "# Remove host:\n")
  {
    var p := "# " + (if add then "Add new host" else "Update host") + ":\n" + y;
    if add {
      assert p == "# Add new host:\n" + y;
      assert p[..16] == "# Add new host:\n";
      assert p[2] == 'A';
    } else {
      assert p == "# Update host:\n" + y;
      assert p[..15] == "# Update host:\n";
      assert p[2] == 'U';
    }
  }

  /** The database object; `hosts` is a map (no name twice). */
  class InfraDatabase {
    var hosts: seq<(string, HostEntry)>

    predicate Valid()
      reads this
    {
      DistinctKeys(hosts)
    }

    constructor()
      ensures hosts == [] && Valid()
    {
      hosts := [];
    }

    /** `addHost`; `ioError` is the error the file system raises when the
        manual file is written, and then nothing changes. */
    method AddHost(disk: Disk, name: string, host: Host, ioError: Option<string>) returns (r: Result<()>)
      requires Valid()
      modifies this, disk
      ensures Valid()
      ensures var u := Committed(Ok(Added(old(Store(hosts, disk.files)), disk.dir, name, host)), true, ioError);
        if u.Ok? then r == Ok(()) && Store(hosts, disk.files) == u.value
        else r == Fail(u.message) && hosts == old(hosts) && disk.files == old(disk.files)
    {
      var m := ManualFile(disk.dir);
      var inv := ReadInventory(disk.files, m);
      if ioError.Some? {
        return Fail(ioError.value);
      }
      disk.files := disk.files[m := Parsed(WithHost(inv, name, host))];
      PutDistinct(hosts, name, HostEntry(host, m));
      hosts := Put(hosts, name, HostEntry(host, m));
      r := Ok(());
    }

    /** `updateHost`; a failure leaves everything unchanged. */
    method UpdateHost(disk: Disk, name: string, host: Host, ioError: Option<string>) returns (r: Result<()>)
      requires Valid()
      modifies this, disk
      ensures Valid()
      ensures var u := Committed(Updated(old(Store(hosts, disk.files)), name, host), true, ioError);
        if u.Ok? then r == Ok(()) && Store(hosts, disk.files) == u.value
        else r == Fail(u.message) && hosts == old(hosts) && disk.files == old(disk.files)
    {
      var existing := Get(hosts, name);
      if existing.None? {
        return Fail(NotFound(name));
      }
      var path := existing.value.sourceFile;
      var inv := ReadInventory(disk.files, path);
      if ioError.Some? {
        return Fail(ioError.value);
      }
      disk.files := disk.files[path := Parsed(WithHost(inv, name, host))];
      PutDistinct(hosts, name, HostEntry(host, path));
      hosts := Put(hosts, name, HostEntry(host, path));
      r := Ok(());
    }

    /** `removeHost`; a failure leaves everything unchanged. The manual file
        is deleted only if it exists. */
    method RemoveHost(disk: Disk, name: string, ioError: Option<string>) returns (r: Result<()>)
      requires Valid()
      modifies this, disk
      ensures Valid()
      ensures var s := old(Store(hosts, disk.files));
        var u := Committed(Removed(s, disk.dir, name), RemoveTouchesDisk(s, disk.dir, name), ioError);
        if u.Ok? then r == Ok(()) && Store(hosts, disk.files) == u.value
        else r == Fail(u.message) && hosts == old(hosts) && disk.files == old(disk.files)
    {
      var existing := Get(hosts, name);
      if existing.None? {
        return Fail(NotFound(name));
      }
      var path := existing.value.sourceFile;
      var inv := WithoutHost(ReadInventory(disk.files, path), name);
      if inv.hosts.None? && path == ManualFile(disk.dir) {
        if path in disk.files {
          if ioError.Some? {
            return Fail(ioError.value);
          }
          disk.files := disk.files - {path};
        }
      } else {
        if ioError.Some? {
          return Fail(ioError.value);
        }
        disk.files := disk.files[path := Parsed(inv)];
      }
      RemoveDistinct(hosts, name);
      hosts := Remove(hosts, name);
      r := Ok(());
    }
  }

  /** The inventory directory's files, by path. */
  class Disk {
    const dir: string
    var files: map<string, FileContent>

    constructor(dir: string, files: map<string, FileContent>)
      ensures this.dir == dir && this.files == files
    {
      this.dir := dir;
      this.files := files;
    }
  }

  /** `loadInfraDatabase`; `listing` is the directory listing, `None` when
      the directory does not exist. */
  method LoadInfraDatabase(disk: Disk, listing: Option<seq<string>>) returns (db: InfraDatabase)
    ensures fresh(db) && db.Valid()
    ensures db.hosts == Loaded(disk.dir, disk.files, LoadOrder(listing))
    ensures listing.None? ==> db.hosts == []
  {
    db := new InfraDatabase();
    if listing.None? {
      return;
    }
    var hosts := LoadHosts(disk.dir, disk.files, LoadOrder(listing));
    db.hosts := hosts;
  }
}
