/** The organization endpoints. Creating an organization makes its creator
    its owner; deleting one deletes its memberships. Update and delete carry
    no authorization check. */
module Organizations {
  import opened Responses
  import opened Models
  import opened Database

  /** `GET /organizations/my`: the organizations joined with the caller's
      memberships; none is a 404. A membership whose organization does not
      exist contributes nothing to the join. */
  function MyOrganizations(db: Db, caller: Identity): (r: Result<map<int, Organization>>)
    reads db
    ensures r.Err? <==> forall id :: id in db.organizations ==> (id, caller.userId) !in db.memberships
    ensures r.Err? ==> r == Err(NotFound, "No organizations found for this user")
    ensures r.Ok? ==> forall id :: id in r.value <==> id in db.organizations && (id, caller.userId) in db.memberships
    ensures r.Ok? ==> forall id :: id in r.value ==> id in db.organizations && r.value[id] == db.organizations[id]
  {
    if exists id :: id in db.organizations && (id, caller.userId) in db.memberships then
      Ok(map id | id in db.organizations && (id, caller.userId) in db.memberships :: db.organizations[id])
    else Err(NotFound, "No organizations found for this user")
  }

  /** `GET /organizations/`. */
  function ReadOrganizations(db: Db): (r: Result<map<int, Organization>>)
    reads db
    ensures r.Err? <==> db.organizations == map[]
    ensures r.Err? ==> r == Err(NotFound, "No organizations found")
    ensures r.Ok? ==> r.value == db.organizations
  {
    if db.organizations == map[] then Err(NotFound, "No organizations found") else Ok(db.organizations)
  }

  /** `GET /organizations/{organization_id}`. */
  function ReadOrganization(db: Db, organizationId: int): (r: Result<Organization>)
    reads db
    ensures r.Ok? <==> organizationId in db.organizations
    ensures r.Ok? ==> r.value == db.organizations[organizationId]
    ensures r.Err? ==> r == Err(NotFound, "Organization not found")
  {
    if organizationId in db.organizations then Ok(db.organizations[organizationId])
    else Err(NotFound, "Organization not found")
  }

  /** Some organization has this name. */
  predicate NameInUse(orgs: map<int, Organization>, name: string) {
    exists id :: id in orgs && orgs[id].name == name
  }

  /** `POST /organizations/`. A name already in use is a 400 and adds
      nothing. Otherwise the organization is committed under a fresh id and
      then the creator's `owner` membership is added. That second insert
      fails (500) when a membership for the fresh id and the creator already
      exists; the organization stays committed. The handler replies with a
      message; the model returns the new organization's id instead so that
      callers can refer to the new row. */
  method CreateOrganization(db: Db, caller: Identity, name: string) returns (r: Result<int>)
    requires db.Valid()
    modifies db`organizations, db`nextOrganizationId, db`memberships
    ensures db.Valid()
    ensures NameInUse(old(db.organizations), name) ==>
      && r == Err(BadRequest, "Organization with this name already exists")
      && db.organizations == old(db.organizations) && db.memberships == old(db.memberships)
      && db.nextOrganizationId == old(db.nextOrganizationId)
    ensures !NameInUse(old(db.organizations), name) ==>
      var id := old(db.nextOrganizationId);
      && id !in old(db.organizations)
      && db.organizations == old(db.organizations)[id := Organization(name)]
      && ((id, caller.userId) !in old(db.memberships) ==>
            r == Ok(id) && db.memberships == old(db.memberships)[(id, caller.userId) := OwnerRole])
      && ((id, caller.userId) in old(db.memberships) ==>
            r == Err(ServerError, "Internal Server Error") && db.memberships == old(db.memberships))
  {
    if NameInUse(db.organizations, name) {
      return Err(BadRequest, "Organization with this name already exists");
    }
    var id := db.nextOrganizationId;
    db.organizations := db.organizations[id := Organization(name)];
    db.nextOrganizationId := id + 1;
    if (id, caller.userId) in db.memberships {
      return Err(ServerError, "Internal Server Error");
    }
    db.memberships := db.memberships[(id, caller.userId) := OwnerRole];
    r := Ok(id);
  }

  /** The memberships of every organization but `organizationId`. */
  function MembershipsOutside(ms: Memberships, organizationId: int): Memberships {
    map k | k in ms && k.0 != organizationId :: ms[k]
  }

  /** Some invitation still points at the organization. */
  predicate OrganizationHasInvitations(invitations: map<int, Invitation>, organizationId: int) {
    exists id :: id in invitations && invitations[id].organizationId == organizationId
  }

  /** `DELETE /organizations/{organization_id}`: a missing organization is a
      404. The `invitations` relationship has no delete cascade, so the ORM
      would null the non-nullable `organization_id` of its invitations and
      the commit fails (500, rolled back, memberships included) while any
      invitation remains. Otherwise all its memberships and then the
      organization itself are deleted, and other organizations' memberships
      stay. */
  method DeleteOrganization(db: Db, organizationId: int) returns (r: Result<()>)
    requires db.Valid()
    modifies db`organizations, db`memberships
    ensures db.Valid()
    ensures organizationId !in old(db.organizations) ==> r == Err(NotFound, "Organization not found")
    ensures organizationId in old(db.organizations) && OrganizationHasInvitations(db.invitations, organizationId) ==>
      r == Err(ServerError, "Internal Server Error")
    ensures r.Ok? <==> organizationId in old(db.organizations) && !OrganizationHasInvitations(db.invitations, organizationId)
    ensures r.Err? ==> db.organizations == old(db.organizations) && db.memberships == old(db.memberships)
    ensures r.Ok? ==>
      && db.organizations == old(db.organizations) - {organizationId}
      && db.memberships == MembershipsOutside(old(db.memberships), organizationId)
  {
    if organizationId !in db.organizations {
      return Err(NotFound, "Organization not found");
    }
    if OrganizationHasInvitations(db.invitations, organizationId) {
      return Err(ServerError, "Internal Server Error");
    }
    db.memberships := MembershipsOutside(db.memberships, organizationId);
    db.organizations := db.organizations - {organizationId};
    r := Ok(());
  }

  /** `PUT /organizations/{organization_id}`: a missing organization is a 404.
      The name is overwritten only by a non-empty new one. The code does not
      re-check uniqueness; the unique column rejects a name another
      organization holds when the change is committed (500, no change). */
  method UpdateOrganization(db: Db, organizationId: int, name: Option<string>) returns (r: Result<()>)
    requires db.Valid()
    modifies db`organizations
    ensures db.Valid()
    ensures organizationId !in old(db.organizations) ==>
      r == Err(NotFound, "Organization not found") && db.organizations == old(db.organizations)
    ensures organizationId in old(db.organizations) && Truthy(name)
            && OrganizationNameTaken(old(db.organizations), organizationId, name.value) ==>
      r == Err(ServerError, "Internal Server Error") && db.organizations == old(db.organizations)
    ensures organizationId in old(db.organizations) && !Truthy(name) ==>
      r == Ok(()) && db.organizations == old(db.organizations)
    ensures organizationId in old(db.organizations) && Truthy(name)
            && !OrganizationNameTaken(old(db.organizations), organizationId, name.value) ==>
      r == Ok(()) && db.organizations == old(db.organizations)[organizationId := Organization(name.value)]
  {
    if organizationId !in db.organizations {
      return Err(NotFound, "Organization not found");
    }
    if Truthy(name) {
      if OrganizationNameTaken(db.organizations, organizationId, name.value) {
        return Err(ServerError, "Internal Server Error");
      }
      db.organizations := db.organizations[organizationId := Organization(name.value)];
    }
    r := Ok(());
  }
}
