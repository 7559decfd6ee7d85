/** The topic endpoints. Topic names are checked for uniqueness on creation
    only; neither create nor update checks that the channel belongs to the
    organization, and update validates nothing it assigns. */
module Topics {
  import opened Responses
  import opened Models
  import opened Database

  /** `GET /topics/topics_in_channel`: exactly the topics of one channel;
      none is a 404. */
  function TopicsInChannel(db: Db, channelId: int): (r: Result<map<int, Topic>>)
    reads db
    ensures r.Err? <==> forall id :: id in db.topics ==> db.topics[id].channelId != channelId
    ensures r.Err? ==> r == Err(NotFound, "No topics found in this channel")
    ensures r.Ok? ==> forall id :: id in r.value <==> id in db.topics && db.topics[id].channelId == channelId
    ensures r.Ok? ==> forall id :: id in r.value ==> id in db.topics && r.value[id] == db.topics[id]
  {
    if exists id :: id in db.topics && db.topics[id].channelId == channelId then
      Ok(map id | id in db.topics && db.topics[id].channelId == channelId :: db.topics[id])
    else Err(NotFound, "No topics found in this channel")
  }

  /** `GET /topics/`. */
  function ReadTopics(db: Db): (r: Result<map<int, Topic>>)
    reads db
    ensures r.Err? <==> db.topics == map[]
    ensures r.Err? ==> r == Err(NotFound, "No topics found")
    ensures r.Ok? ==> r.value == db.topics
  {
    if db.topics == map[] then Err(NotFound, "No topics found") else Ok(db.topics)
  }

  /** `GET /topics/{topic_id}`. */
  function ReadTopic(db: Db, topicId: int): (r: Result<Topic>)
    reads db
    ensures r.Ok? <==> topicId in db.topics
    ensures r.Ok? ==> r.value == db.topics[topicId]
    ensures r.Err? ==> r == Err(NotFound, "No topic found")
  {
    if topicId in db.topics then Ok(db.topics[topicId]) else Err(NotFound, "No topic found")
  }

  /** Some topic, anywhere, has this name. */
  predicate TopicNameInUse(topics: map<int, Topic>, name: string) {
    exists id :: id in topics && topics[id].name == name
  }

  /** `POST /topics/`. Checks, in order: the name is unused (400), the
      organization exists (404), the channel exists (404). Success adds
      exactly one topic, whether or not the channel is in that organization.
      The handler replies with a message; the model returns the new topic's
      id instead so that callers can refer to the new row. */
  method CreateTopic(db: Db, name: string, channelId: int, organizationId: int) returns (r: Result<int>)
    requires db.Valid()
    modifies db`topics, db`nextTopicId
    ensures db.Valid()
    ensures TopicNameInUse(old(db.topics), name) ==> r == Err(BadRequest, "Topic with this name already exists")
    ensures !TopicNameInUse(old(db.topics), name) && organizationId !in db.organizations ==>
      r == Err(NotFound, "Organization not found")
    ensures !TopicNameInUse(old(db.topics), name) && organizationId in db.organizations && channelId !in db.channels ==>
      r == Err(NotFound, "Channel not found")
    ensures r.Err? ==> db.topics == old(db.topics) && db.nextTopicId == old(db.nextTopicId)
    ensures r.Ok? <==> !TopicNameInUse(old(db.topics), name) && organizationId in db.organizations && channelId in db.channels
    ensures r.Ok? ==>
      && r.value !in old(db.topics)
      && db.topics == old(db.topics)[r.value := Topic(name, channelId, organizationId)]
  {
    if TopicNameInUse(db.topics, name) {
      return Err(BadRequest, "Topic with this name already exists");
    }
    if organizationId !in db.organizations {
      return Err(NotFound, "Organization not found");
    }
    if channelId !in db.channels {
      return Err(NotFound, "Channel not found");
    }
    var id := db.nextTopicId;
    db.topics := db.topics[id := Topic(name, channelId, organizationId)];
    db.nextTopicId := id + 1;
    r := Ok(id);
  }

  /** `DELETE /topics/{topic_id}`: a missing topic is a 404; otherwise
      exactly that topic is removed. */
  method DeleteTopic(db: Db, topicId: int) returns (r: Result<()>)
    requires db.Valid()
    modifies db`topics
    ensures db.Valid()
    ensures r.Ok? <==> topicId in old(db.topics)
    ensures r.Err? ==> r == Err(NotFound, "Topic not found") && db.topics == old(db.topics)
    ensures r.Ok? ==> db.topics == old(db.topics) - {topicId}
  {
    if topicId !in db.topics {
      return Err(NotFound, "Topic not found");
    }
    db.topics := db.topics - {topicId};
    r := Ok(());
  }

  /** The topic after an update: each field given a truthy value is overwritten. */
  function UpdatedTopic(t: Topic, name: Option<string>, channelId: Option<int>, organizationId: Option<int>): Topic {
    Topic(if Truthy(name) then name.value else t.name,
          if TruthyId(channelId) then channelId.value else t.channelId,
          if TruthyId(organizationId) then organizationId.value else t.organizationId)
  }

  /** An update that gives no truthy field leaves the topic as it was, and a
      field given a truthy value ends up with exactly that value. */
  lemma UpdatedTopicFields(t: Topic, name: Option<string>, channelId: Option<int>, organizationId: Option<int>)
    ensures !Truthy(name) && !TruthyId(channelId) && !TruthyId(organizationId) ==>
              UpdatedTopic(t, name, channelId, organizationId) == t
    ensures Truthy(name) ==> UpdatedTopic(t, name, channelId, organizationId).name == name.value
    ensures TruthyId(channelId) ==> UpdatedTopic(t, name, channelId, organizationId).channelId == channelId.value
    ensures TruthyId(organizationId) ==> UpdatedTopic(t, name, channelId, organizationId).organizationId == organizationId.value
  {
  }

  /** `PUT /topics/{topic_id}`: a missing topic is a 404; otherwise only the
      truthy fields are overwritten, none of them validated. */
  method UpdateTopic(db: Db, topicId: int, name: Option<string>, channelId: Option<int>, organizationId: Option<int>)
    returns (r: Result<()>)
    requires db.Valid()
    modifies db`topics
    ensures db.Valid()
    ensures r.Ok? <==> topicId in old(db.topics)
    ensures r.Err? ==> r == Err(NotFound, "Topic not found") && db.topics == old(db.topics)
    ensures r.Ok? ==>
      db.topics == old(db.topics)[topicId := UpdatedTopic(old(db.topics)[topicId], name, channelId, organizationId)]
  {
    if topicId !in db.topics {
      return Err(NotFound, "Topic not found");
    }
    var topic := db.topics[topicId];
    if Truthy(name) {
      topic := topic.(name := name.value);
    }
    if TruthyId(channelId) {
      topic := topic.(channelId := channelId.value);
    }
    if TruthyId(organizationId) {
      topic := topic.(organizationId := organizationId.value);
    }
    db.topics := db.topics[topicId := topic];
    r := Ok(());
  }
}
