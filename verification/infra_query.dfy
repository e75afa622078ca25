/** The `infra_query` tool (src/tools/infra-query.ts): the reply text built
    from `queryHosts` and `formatHosts`. */
module InfraQuery {
  import opened Wrappers
  import opened JsText
  import opened Infra

  /** The reply for an empty database, one sentence per part: the verifier
      reads the first character of a short literal directly, but not of
      one this long. */
  const EMPTY_DATABASE: string := "The infrastructure database is empty." + " No hosts have been added yet."

  /** The reply when a filter matched nothing. */
  function NoMatch(name: Option<string>, tag: Option<string>): string {
    "No hosts found matching " +
    (if Truthy(name) then "name=\"" + name.value + "\"" else "") +
    (if Truthy(name) && Truthy(tag) then ", " else "") +
    (if Truthy(tag) then "tag=\"" + tag.value + "\"" else "") + "."
  }

  /** `Found N host:` or `Found N hosts:` */
  function FoundHeader(n: nat): (r: string)
    ensures |r| > 6 && r[..6] == "Found "
  {
    "Found " + NatToString(n) + " host" + (if n == 1 then "" else "s") + ":"
  }

  /** `execute({ name, tag })` over the database's hosts. */
  function QueryReply(hosts: seq<(string, HostEntry)>, name: Option<string>, tag: Option<string>): string {
    var results := QueryHosts(hosts, HostFilter(name, tag));
    if results == [] then
      if Truthy(name) || Truthy(tag) then NoMatch(name, tag) else EMPTY_DATABASE
    else FoundHeader(|results|) + "\n\n" + FormatHosts(results)
  }

  lemma HeaderPrefix(n: nat, rest: string)
    ensures StartsWith(FoundHeader(n) + rest, "Found ")
  {
    var h := FoundHeader(n);
    assert (h + rest)[..6] == h[..6];
  }

  lemma NotFoundPrefix(name: Option<string>, tag: Option<string>)
    ensures !StartsWith(NoMatch(name, tag), "Found ")
    ensures !StartsWith(EMPTY_DATABASE, "Found ")
  {
    assert NoMatch(name, tag)[0] == 'N';
    assert EMPTY_DATABASE[0] == 'T';
  }

  /** A reply starts with "Found " exactly when some host matched, and then
      carries the count and the formatted matches after a blank line. */
  lemma ReplyFound(hosts: seq<(string, HostEntry)>, name: Option<string>, tag: Option<string>)
    ensures var results := QueryHosts(hosts, HostFilter(name, tag));
      var r := QueryReply(hosts, name, tag);
      (StartsWith(r, "Found ") <==> results != []) &&
      (results != [] ==> r == FoundHeader(|results|) + "\n\n" + FormatHosts(results))
  {
    var results := QueryHosts(hosts, HostFilter(name, tag));
    if results != [] {
      HeaderPrefix(|results|, "\n\n" + FormatHosts(results));
      AppendAssoc(FoundHeader(|results|), "\n\n", FormatHosts(results));
    } else {
      NotFoundPrefix(name, tag);
    }
  }

  /** Without a filter the reply is the empty-database text exactly when the
      database is empty. */
  lemma ReplyUnfiltered(hosts: seq<(string, HostEntry)>, name: Option<string>, tag: Option<string>)
    requires !Truthy(name) && !Truthy(tag)
    ensures QueryReply(hosts, name, tag) == EMPTY_DATABASE <==> hosts == []
  {
    if hosts != [] {
      ReplyFound(hosts, name, tag);
      assert EMPTY_DATABASE[0] == 'T';
    }
  }

  /** With both filters the no-match text names both, separated by a comma. */
  lemma NoMatchBoth(n: string, t: string)
    requires n != [] && t != []
    ensures NoMatch(Some(n), Some(t)) == "No hosts found matching name=\"" + n + "\", tag=\"" + t + "\"."
  {
  }

  /** With one filter the no-match text names just that one, without a
      comma; an empty filter counts as absent. */
  lemma NoMatchSingle(n: string, t: string)
    requires n != [] && t != []
    ensures NoMatch(Some(n), None) == "No hosts found matching name=\"" + n + "\"."
    ensures NoMatch(Some(n), Some("")) == NoMatch(Some(n), None)
    ensures NoMatch(None, Some(t)) == "No hosts found matching tag=\"" + t + "\"."
  {
  }
}
