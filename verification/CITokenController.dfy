/** reconcileCIToken in the form the controller has it: a sequence of calls on a SonarQube server and
    a Kubernetes API, each of which updates the object it is made on. The method is proved to do
    exactly one Pass of the protocol in CIToken. */
module CITokenController {
  import opened Outcomes
  import opened CIToken

  /** The user-token endpoints of one SonarQube server. */
  class SonarQube {
    const instance: string
    var tokens: map<string, nat>
    var issued: nat

    constructor (instance: string)
      ensures this.instance == instance && tokens == map[] && issued == 0
    {
      this.instance := instance;
      tokens := map[];
      issued := 0;
    }

    method RevokeToken(name: string, o: Outcome) returns (ok: bool)
      modifies this`tokens
      ensures ok == o.Ok()
      ensures tokens == if o.Effective() then old(tokens) - {name} else old(tokens)
    {
      if o.Effective() {
        tokens := tokens - {name};
      }
      return o.Ok();
    }

    /** A name that is live is refused. */
    method GenerateToken(name: string, o: Outcome) returns (token: Option<nat>)
      modifies this`tokens, this`issued
      ensures var generates := o.Effective() && name !in old(tokens);
              && tokens == (if generates then old(tokens)[name := old(issued)] else old(tokens))
              && issued == old(issued) + One(generates)
              && token == if generates && o.Ok() then Some(old(issued)) else None
    {
      token := None;
      if o.Effective() && name !in tokens {
        tokens := tokens[name := issued];
        if o.Ok() {
          token := Some(issued);
        }
        issued := issued + 1;
      }
    }
  }

  /** The Secrets and project annotations kept in Kubernetes, with the history of what was done. */
  class Cluster {
    var secrets: map<SecretRef, nat>
    var annotation: map<ProjectId, string>
    ghost var created: multiset<SecretRef>
    ghost var annotated: multiset<ProjectId>
    ghost var deleted: multiset<SecretRef>
    ghost var dead: set<SecretRef>

    constructor ()
      ensures secrets == map[] && annotation == map[] && created == multiset{}
      ensures annotated == multiset{} && deleted == multiset{} && dead == {}
    {
      secrets, annotation := map[], map[];
      created, annotated, deleted, dead := multiset{}, multiset{}, multiset{}, {};
    }

    /** Both servers as one value. */
    ghost function Look(server: SonarQube): World
      reads this, server
    {
      World(server.instance, server.tokens, server.issued, secrets, annotation, created, annotated, deleted, dead)
    }

    method User(ghost server: SonarQube, a: UserAct)
      modifies this
      ensures Look(server) == Act(old(Look(server)), a)
    {
      match a {
        case Annotate(id, value) =>
          annotation := annotation[id := value];
          if value == "true" {
            annotated := annotated + multiset{id};
          }
        case Unannotate(id) =>
          annotation := annotation - {id};
        case DeleteSecret(ref) =>
          if ref in secrets {
            secrets, dead := secrets - {ref}, dead - {ref};
            deleted := deleted + multiset{ref};
          }
      }
    }

    /** What users do while the controller is between two calls. */
    method Users(ghost server: SonarQube, acts: seq<UserAct>)
      modifies this
      ensures Look(server) == Acts(old(Look(server)), acts)
    {
      for i := 0 to |acts|
        invariant Look(server) == Acts(old(Look(server)), acts[..i])
      {
        assert acts[..i + 1][..i] == acts[..i];
        User(server, acts[i]);
      }
      assert acts[..|acts|] == acts;
    }

    /** Patch of a project whose local copy no longer has the rotate-token annotation. */
    method PatchAnnotationAway(id: ProjectId, o: Outcome) returns (ok: bool)
      modifies this`annotation
      ensures ok == o.Ok()
      ensures annotation == if o.Effective() then old(annotation) - {id} else old(annotation)
    {
      if o.Effective() {
        annotation := annotation - {id};
      }
      return o.Ok();
    }

    /** Deleting a Secret that is gone is not an error for the caller. */
    method DeleteSecret(ref: SecretRef, o: Outcome, ghost revoked: bool) returns (ok: bool)
      modifies this`secrets, this`dead
      ensures ok == o.Ok()
      ensures secrets == if o.Effective() then old(secrets) - {ref} else old(secrets)
      ensures dead == if o.Effective() then old(dead) - {ref}
                      else if revoked && ref in old(secrets) then old(dead) + {ref} else old(dead)
    {
      if o.Effective() {
        secrets, dead := secrets - {ref}, dead - {ref};
      } else if revoked && ref in secrets {
        dead := dead + {ref};
      }
      return o.Ok();
    }

    method CreateSecret(ref: SecretRef, token: nat, o: Outcome) returns (ok: bool)
      modifies this`secrets, this`created
      ensures var creates := o.Effective() && ref !in old(secrets);
              && secrets == (if creates then old(secrets)[ref := token] else old(secrets))
              && created == (if creates then old(created) + multiset{ref} else old(created))
              && ok == (creates && o.Ok())
    {
      ok := false;
      if o.Effective() && ref !in secrets {
        secrets, created := secrets[ref := token], created + multiset{ref};
        ok := o.Ok();
      }
    }
  }

  /** One rotation pass. On success tokenSecretRef is what the status is set to. */
  method ReconcileCIToken(project: Project, server: SonarQube, cluster: Cluster, e: Env)
    returns (ok: bool, tokenSecretRef: Option<SecretRef>)
    modifies server, cluster
    ensures Result(cluster.Look(server), ok) == Pass(old(cluster.Look(server)), project, e)
    ensures var named := if project.secretName != "" then project.secretName else project.id.name + "-ci-token";
            var secret := SecretRef(project.id.namespace, named);
            && tokenSecretRef == (if ok then Some(secret) else None)
            && (ok ==> secret in cluster.secrets)
  {
    ghost var before := cluster.Look(server);
    var secretRef := project.Secret();
    var forceRotate := project.id in cluster.annotation && cluster.annotation[project.id] == "true";

    cluster.Users(server, e.beforeGet);
    if !e.get.Ok() {
      return false, None;
    }
    var secretExists := secretRef in cluster.secrets;
    if secretExists && !forceRotate {
      SuccessUsesTheNamedSecret(before, project, e);
      return true, Some(secretRef);
    }

    if forceRotate {
      cluster.Users(server, e.beforePatch);
      ghost var w := cluster.Look(server);
      var patched := cluster.PatchAnnotationAway(project.id, e.patch);
      assert cluster.Look(server) == ClearAnnotation(w, project, e.patch);
      if !patched {
        return false, None;
      }
    }

    ok := RevokeAndReissue(project, secretExists, server, cluster, e);
    tokenSecretRef := if ok then Some(secretRef) else None;
    if ok {
      SuccessUsesTheNamedSecret(before, project, e);
    }
  }

  /** The second half of a rotation: revoke (errors ignored), delete, generate, create. */
  method RevokeAndReissue(project: Project, secretExists: bool, server: SonarQube, cluster: Cluster, e: Env)
    returns (ok: bool)
    modifies server, cluster
    ensures Result(cluster.Look(server), ok) == Rotate(old(cluster.Look(server)), project, secretExists, e)
  {
    var secretRef := project.Secret();
    var tokenName := project.TokenName(server.instance);

    cluster.Users(server, e.beforeRevoke);
    ghost var w := cluster.Look(server);
    var _ := server.RevokeToken(tokenName, e.revoke);
    assert cluster.Look(server) == Revoke(w, project, e.revoke);

    if secretExists {
      cluster.Users(server, e.beforeDelete);
      w := cluster.Look(server);
      var removed := cluster.DeleteSecret(secretRef, e.delete, e.revoke.Effective());
      assert cluster.Look(server) == Delete(w, project, e.delete, e.revoke.Effective());
      if !removed {
        return false;
      }
    }
    ok := GenerateAndStore(project, server, cluster, e);
  }

  /** The end of a rotation: a fresh token into a new Secret. */
  method GenerateAndStore(project: Project, server: SonarQube, cluster: Cluster, e: Env) returns (ok: bool)
    modifies server, cluster
    ensures Result(cluster.Look(server), ok) == Issue(old(cluster.Look(server)), project, e)
  {
    cluster.Users(server, e.beforeGenerate);
    ghost var w := cluster.Look(server);
    var token := server.GenerateToken(project.TokenName(server.instance), e.generate);
    assert cluster.Look(server) == Generate(w, project, e.generate);
    if token.None? {
      return false;
    }

    cluster.Users(server, e.beforeCreate);
    w := cluster.Look(server);
    ok := cluster.CreateSecret(project.Secret(), token.value, e.create);
    assert cluster.Look(server) == Create(w, project, token.value, e.create);
  }
}
