/**
 * Workspace selection in the OAuth callback of server.js: with an allow-listed
 * workspace configured, the first accessible resource whose name equals it
 * ignoring case, or a denial; without one, the first accessible resource.
 */
module Workspace {
  import opened Wrappers

  /** One entry of the accessible-resources response: a cloud id and a site name. */
  datatype Resource = Resource(id: string, name: string)

  /** The policy's verdict on a list of accessible resources. */
  datatype Choice =
    | Use(resource: Resource)  // proceed with this workspace
    | Deny                     // allow-list configured and nothing matches
    | NoWorkspace              // no allow-list and the list is empty: workspaceToUse is undefined

  /** ASCII lower-casing of one character. */
  function LowerChar(c: char): (d: char)
    ensures !('A' <= d <= 'Z')
  {
    if 'A' <= c <= 'Z' then (c as int + 32) as char else c
  }

  /** String lower-casing, character by character. */
  function Lower(s: string): (r: string)
    ensures |r| == |s|
    ensures forall i :: 0 <= i < |s| ==> r[i] == LowerChar(s[i])
  {
    if s == [] then [] else [LowerChar(s[0])] + Lower(s[1..])
  }

  /** The comparison inside the `find`: names equal after lower-casing both. */
  predicate Matches(r: Resource, allowed: string)
  {
    Lower(r.name) == Lower(allowed)
  }

  /** Index of the first resource that matches, as `Array.prototype.find` scans. */
  function FirstMatch(rs: seq<Resource>, allowed: string): (i: Option<nat>)
    ensures i.Some? ==> i.value < |rs| && Matches(rs[i.value], allowed)
    ensures i.Some? ==> forall j :: 0 <= j < i.value ==> !Matches(rs[j], allowed)
    ensures i.None? ==> forall j :: 0 <= j < |rs| ==> !Matches(rs[j], allowed)
  {
    if rs == [] then None
    else if Matches(rs[0], allowed) then Some(0)
    else match FirstMatch(rs[1..], allowed)
      case None => None
      case Some(k) => Some(k + 1)
  }

  /** ALLOWED_WORKSPACE is configured when it is set to a non-empty string. */
  predicate Configured(allowed: Option<string>)
  {
    allowed.Some? && allowed.value != ""
  }

  /** `allowedWorkspaceResource || resources[0]`, with the denial when the find fails. */
  function SelectWorkspace(rs: seq<Resource>, allowed: Option<string>): (c: Choice)
    ensures c.Use? ==> c.resource in rs
    ensures Configured(allowed) ==> (c.Deny? <==> forall r :: r in rs ==> !Matches(r, allowed.value))
    ensures Configured(allowed) ==> !c.NoWorkspace?
    ensures Configured(allowed) && FirstMatch(rs, allowed.value).Some? ==>
      c == Use(rs[FirstMatch(rs, allowed.value).value])
    ensures Configured(allowed) && c.Use? ==>
      exists i :: 0 <= i < |rs| && rs[i] == c.resource && Matches(rs[i], allowed.value) &&
        forall j :: 0 <= j < i ==> !Matches(rs[j], allowed.value)
    ensures !Configured(allowed) ==> (c.NoWorkspace? <==> rs == []) && !c.Deny?
    ensures !Configured(allowed) && c.Use? ==> c.resource == rs[0]
  {
    if Configured(allowed) then
      match FirstMatch(rs, allowed.value)
      case None => Deny
      case Some(i) => Use(rs[i])
    else if rs == [] then NoWorkspace
    else Use(rs[0])
  }

  /** `resources.map(r => r.name)`: the names the denial page lists. */
  function Names(rs: seq<Resource>): (ns: seq<string>)
    ensures |ns| == |rs|
    ensures forall i :: 0 <= i < |rs| ==> ns[i] == rs[i].name
  {
    if rs == [] then [] else [rs[0].name] + Names(rs[1..])
  }

  /** Lower-casing is idempotent, so an already lower-case allow-list name matches itself. */
  lemma LowerIdempotent(s: string)
    ensures Lower(Lower(s)) == Lower(s)
  {
  }

  /**
   * When exactly one accessible resource matches the allow-list (up to equal
   * copies), it is the one chosen, wherever it stands in the list.
   */
  lemma UniqueMatchChosen(rs: seq<Resource>, allowed: Option<string>, r: Resource)
    requires Configured(allowed)
    requires r in rs && Matches(r, allowed.value)
    requires forall x :: x in rs && Matches(x, allowed.value) ==> x == r
    ensures SelectWorkspace(rs, allowed) == Use(r)
  {
  }

  /** The chosen resource never depends on resources after the first match. */
  lemma ChoiceIgnoresTail(rs: seq<Resource>, more: seq<Resource>, allowed: Option<string>)
    requires Configured(allowed)
    requires SelectWorkspace(rs, allowed).Use?
    ensures SelectWorkspace(rs + more, allowed) == SelectWorkspace(rs, allowed)
  {
    var i := FirstMatch(rs, allowed.value).value;
    assert (rs + more)[i] == rs[i];
    var k := FirstMatch(rs + more, allowed.value).value;
    assert k <= i;
  }

  /** Allow-list "Acme": chosen from either order of ["Acme", "Other"]; ["Other"] alone is denied. */
  lemma AcmeExample(acme: Resource, other: Resource)
    requires acme.name == "Acme" && other.name == "Other"
    ensures SelectWorkspace([acme, other], Some("acme")) == Use(acme)
    ensures SelectWorkspace([other, acme], Some("acme")) == Use(acme)
    ensures SelectWorkspace([other], Some("Acme")) == Deny
  {
  }
}
