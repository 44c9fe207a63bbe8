/** The database session: one mutable field per table. The handlers open a
    session, change rows, and commit or roll back; the model gives each request
    the session as `db` and treats the request as one atomic step. */
module Database {
  import opened Wrappers
  import opened Models

  class Db {
    var users: map<Id, User>
    var collections: map<Id, Collection>
    var links: map<Id, Link>
    var memberships: set<Membership>
    var resetTokens: map<Id, ResetToken>
    var tempUsers: map<Id, TempUser>
    var nextUserId: Id
    var nextCollectionId: Id
    var nextLinkId: Id
    var nextResetId: Id
    var nextTempId: Id

    /** The tables as one value. */
    function Abs(): State
      reads this
    {
      State(users, collections, links, memberships, resetTokens, tempUsers,
            nextUserId, nextCollectionId, nextLinkId, nextResetId, nextTempId)
    }

    predicate Valid()
      reads this
    {
      Consistent(Abs())
    }

    /** Base.metadata.create_all on an empty database. */
    constructor ()
      ensures Abs() == Empty() && Valid()
    {
      users, collections, links, memberships, resetTokens, tempUsers := map[], map[], map[], {}, map[], map[];
      nextUserId, nextCollectionId, nextLinkId, nextResetId, nextTempId := 1, 1, 1, 1, 1;
      EmptyConsistent();
    }
  }
}
