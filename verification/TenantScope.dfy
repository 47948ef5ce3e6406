/** Tenant scopes and the storage key that groups audit events by scope. */
module TenantScope {
  /** A parsed identifier is a lower-case UUID: 36 characters, none of them the key separator. */
  predicate IsStableId(s: string) {
    |s| == 36 && ':' !in s
  }

  type StableId = s: string | IsStableId(s) witness "00000000-0000-4000-8000-000000000000"

  datatype TenantScope =
    | Organization(organizationId: StableId)
    | Workspace(organizationId: StableId, workspaceId: StableId)
    | Project(organizationId: StableId, workspaceId: StableId, projectId: StableId)

  function ScopeKey(scope: TenantScope): string {
    match scope
    case Organization(o) => "organization:" + o
    case Workspace(o, w) => "workspace:" + o + ":" + w
    case Project(o, w, p) => "project:" + o + ":" + w + ":" + p
  }

  /** The field-by-field comparison, with its early returns. */
  predicate ScopesEqual(left: TenantScope, right: TenantScope) {
    if left.Organization? != right.Organization? || left.Workspace? != right.Workspace?
       || left.organizationId != right.organizationId then false
    else if left.Organization? then true
    else if left.workspaceId != right.workspaceId then false
    else if left.Workspace? then true
    else left.projectId == right.projectId
  }

  lemma AppendCancels(p: string, a: string, b: string)
    requires p + a == p + b
    ensures a == b
  {
    assert a == (p + a)[|p|..] && b == (p + b)[|p|..];
  }

  lemma AppendSplits(a: string, s: string, b: string, t: string)
    requires |a| == |b| && a + s == b + t
    ensures a == b && s == t
  {
    assert a == (a + s)[..|a|] && b == (b + t)[..|b|];
    assert s == (a + s)[|a|..] && t == (b + t)[|b|..];
  }

  /** Grouping by key is grouping by scope: the key is injective, and it agrees with the
      comparison the other domain modules use. */
  lemma ScopeKeyIdentifiesScope(a: TenantScope, b: TenantScope)
    ensures ScopeKey(a) == ScopeKey(b) <==> a == b
    ensures ScopesEqual(a, b) <==> a == b
  {
    if ScopeKey(a) == ScopeKey(b) {
      assert ScopeKey(a)[0] == ScopeKey(b)[0];
      match (a, b)
      case (Organization(o), Organization(o')) =>
        AppendCancels("organization:", o, o');
      case (Workspace(o, w), Workspace(o', w')) =>
        assert ScopeKey(a) == "workspace:" + (o + (":" + w));
        assert ScopeKey(b) == "workspace:" + (o' + (":" + w'));
        AppendCancels("workspace:", o + (":" + w), o' + (":" + w'));
        AppendSplits(o, ":" + w, o', ":" + w');
        AppendCancels(":", w, w');
      case (Project(o, w, p), Project(o', w', p')) =>
        assert ScopeKey(a) == "project:" + (o + (":" + (w + (":" + p))));
        assert ScopeKey(b) == "project:" + (o' + (":" + (w' + (":" + p'))));
        AppendCancels("project:", o + (":" + (w + (":" + p))), o' + (":" + (w' + (":" + p'))));
        AppendSplits(o, ":" + (w + (":" + p)), o', ":" + (w' + (":" + p')));
        AppendCancels(":", w + (":" + p), w' + (":" + p'));
        AppendSplits(w, ":" + p, w', ":" + p');
        AppendCancels(":", p, p');
      case _ =>
        assert false;
    }
  }
}
