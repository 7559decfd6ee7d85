/** The channel endpoints. Channel names are checked for uniqueness on
    creation only, across all organizations; deleting a channel is reserved
    to owners of its organization. */
module Channels {
  import opened Responses
  import opened Models
  import opened Database

  /** `GET /channels/channels_in_organization`: exactly the channels of one
      organization; none is a 404. */
  function ChannelsInOrganization(db: Db, organizationId: int): (r: Result<map<int, Channel>>)
    reads db
    ensures r.Err? <==> forall id :: id in db.channels ==> db.channels[id].organizationId != organizationId
    ensures r.Err? ==> r == Err(NotFound, "No channels found in this organization")
    ensures r.Ok? ==> forall id :: id in r.value <==> id in db.channels && db.channels[id].organizationId == organizationId
    ensures r.Ok? ==> forall id :: id in r.value ==> id in db.channels && r.value[id] == db.channels[id]
  {
    if exists id :: id in db.channels && db.channels[id].organizationId == organizationId then
      Ok(map id | id in db.channels && db.channels[id].organizationId == organizationId :: db.channels[id])
    else Err(NotFound, "No channels found in this organization")
  }

  /** `GET /channels/`. */
  function ReadChannels(db: Db): (r: Result<map<int, Channel>>)
    reads db
    ensures r.Err? <==> db.channels == map[]
    ensures r.Err? ==> r == Err(NotFound, "Channels not found")
    ensures r.Ok? ==> r.value == db.channels
  {
    if db.channels == map[] then Err(NotFound, "Channels not found") else Ok(db.channels)
  }

  /** `GET /channels/{channel_id}`. */
  function ReadChannel(db: Db, channelId: int): (r: Result<Channel>)
    reads db
    ensures r.Ok? <==> channelId in db.channels
    ensures r.Ok? ==> r.value == db.channels[channelId]
    ensures r.Err? ==> r == Err(NotFound, "Channel not found")
  {
    if channelId in db.channels then Ok(db.channels[channelId]) else Err(NotFound, "Channel not found")
  }

  /** Some channel, in any organization, has this name. */
  predicate ChannelNameInUse(channels: map<int, Channel>, name: string) {
    exists id :: id in channels && channels[id].name == name
  }

  /** `POST /channels/`: a name used by any channel is a 400, checked before
      the organization's existence (404); success adds exactly one channel.
      The handler replies with the whole new row; the model returns its id. */
  method CreateChannel(db: Db, name: string, organizationId: int) returns (r: Result<int>)
    requires db.Valid()
    modifies db`channels, db`nextChannelId
    ensures db.Valid()
    ensures ChannelNameInUse(old(db.channels), name) ==> r == Err(BadRequest, "Channel with this name already exists")
    ensures !ChannelNameInUse(old(db.channels), name) && organizationId !in db.organizations ==>
      r == Err(NotFound, "Organization not found")
    ensures r.Err? ==> db.channels == old(db.channels) && db.nextChannelId == old(db.nextChannelId)
    ensures r.Ok? <==> !ChannelNameInUse(old(db.channels), name) && organizationId in db.organizations
    ensures r.Ok? ==>
      && r.value !in old(db.channels)
      && db.channels == old(db.channels)[r.value := Channel(name, organizationId)]
  {
    if ChannelNameInUse(db.channels, name) {
      return Err(BadRequest, "Channel with this name already exists");
    }
    if organizationId !in db.organizations {
      return Err(NotFound, "Organization not found");
    }
    var id := db.nextChannelId;
    db.channels := db.channels[id := Channel(name, organizationId)];
    db.nextChannelId := id + 1;
    r := Ok(id);
  }

  /** Some topic still belongs to the channel. */
  predicate ChannelHasTopics(topics: map<int, Topic>, channelId: int) {
    exists id :: id in topics && topics[id].channelId == channelId
  }

  /** `DELETE /channels/{channel_id}`: a missing channel is a 404 before any
      permission check; then the caller must own the channel's organization
      (else 403). The `topics` relationship has no delete cascade, so the ORM
      would null the non-nullable `channel_id` of the channel's topics and
      the commit fails (500, nothing deleted) while any topic remains.
      Otherwise exactly that channel is removed. */
  method DeleteChannel(db: Db, caller: Identity, channelId: int) returns (r: Result<Channel>)
    requires db.Valid()
    modifies db`channels
    ensures db.Valid()
    ensures channelId !in old(db.channels) ==> r == Err(NotFound, "Channel not found")
    ensures channelId in old(db.channels) && !IsOwner(db.memberships, old(db.channels)[channelId].organizationId, caller.userId) ==>
      r == Err(Forbidden, "Only organization owners can delete channels")
    ensures channelId in old(db.channels) && IsOwner(db.memberships, old(db.channels)[channelId].organizationId, caller.userId)
            && ChannelHasTopics(db.topics, channelId) ==>
      r == Err(ServerError, "Internal Server Error")
    ensures r.Err? ==> db.channels == old(db.channels)
    ensures r.Ok? <==> channelId in old(db.channels) && IsOwner(db.memberships, old(db.channels)[channelId].organizationId, caller.userId)
                       && !ChannelHasTopics(db.topics, channelId)
    ensures r.Ok? ==> r.value == old(db.channels)[channelId] && db.channels == old(db.channels) - {channelId}
  {
    if channelId !in db.channels {
      return Err(NotFound, "Channel not found");
    }
    var channel := db.channels[channelId];
    if !IsOwner(db.memberships, channel.organizationId, caller.userId) {
      return Err(Forbidden, "Only organization owners can delete channels");
    }
    if ChannelHasTopics(db.topics, channelId) {
      return Err(ServerError, "Internal Server Error");
    }
    db.channels := db.channels - {channelId};
    r := Ok(channel);
  }

  /** `PUT /channels/{channel_id}`: a missing channel is a 404. A non-empty
      name renames it; a non-zero organization id moves it, but only to an
      existing organization, otherwise 404 and nothing is committed. */
  method UpdateChannel(db: Db, channelId: int, name: string, organizationId: int) returns (r: Result<Channel>)
    requires db.Valid()
    modifies db`channels
    ensures db.Valid()
    ensures channelId !in old(db.channels) ==> r == Err(NotFound, "Channel not found")
    ensures channelId in old(db.channels) && organizationId != 0 && organizationId !in db.organizations ==>
      r == Err(NotFound, "Organization not found")
    ensures r.Err? ==> db.channels == old(db.channels)
    ensures r.Ok? <==> channelId in old(db.channels) && (organizationId == 0 || organizationId in db.organizations)
    ensures r.Ok? ==>
      var was := old(db.channels)[channelId];
      && r.value == Channel(if name != "" then name else was.name,
                            if organizationId != 0 then organizationId else was.organizationId)
      && db.channels == old(db.channels)[channelId := r.value]
  {
    if channelId !in db.channels {
      return Err(NotFound, "Channel not found");
    }
    var channel := db.channels[channelId];
    if name != "" {
      channel := channel.(name := name);
    }
    if organizationId != 0 {
      if organizationId !in db.organizations {
        return Err(NotFound, "Organization not found");
      }
      channel := channel.(organizationId := organizationId);
    }
    db.channels := db.channels[channelId := channel];
    r := Ok(channel);
  }
}
