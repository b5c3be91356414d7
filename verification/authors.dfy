/** Author lookup: `users.find(u => u.id === authorId)`, which appears in
    `utils/findPostAuthor.ts`, `lib/getAuthorDetails.ts`,
    `assets/lib/getAuthorDetails.ts` and `composables/useBlogPosts.ts`. */
module Authors {
  import opened Base
  import opened Records

  /** What every copy of the lookup promises: `r` is the first user whose id
      is `authorId`, and it is `undefined` exactly when there is none. */
  ghost predicate IsAuthorLookup(users: seq<User>, authorId: string, r: Option<User>) {
    && (r.None? <==> forall i :: 0 <= i < |users| ==> users[i].id != authorId)
    && (r.Some? ==> r.value.id == authorId && r.value in users)
    && (r.Some? ==> exists i :: 0 <= i < |users| && users[i] == r.value
                                && forall j :: 0 <= j < i ==> users[j].id != authorId)
  }

  function UserById(users: seq<User>, authorId: string): (r: Option<User>)
    ensures IsAuthorLookup(users, authorId, r)
  {
    Find(users, (u: User) => u.id == authorId)
  }

  /** `findPostAuthor(users, author_id)` of utils/findPostAuthor.ts. */
  function FindPostAuthor(users: seq<User>, authorId: string): (r: Option<User>)
    ensures IsAuthorLookup(users, authorId, r)
  {
    UserById(users, authorId)
  }

  /** `getAuthorDetails(users, author_id)` of lib/getAuthorDetails.ts. */
  function GetAuthorDetails(users: seq<User>, authorId: string): (r: Option<User>)
    ensures IsAuthorLookup(users, authorId, r)
  {
    UserById(users, authorId)
  }

  /** `getAuthorDetails(users, author_id)` of assets/lib/getAuthorDetails.ts,
      a copy of the previous one. */
  function AssetsGetAuthorDetails(users: seq<User>, authorId: string): (r: Option<User>)
    ensures IsAuthorLookup(users, authorId, r)
  {
    UserById(users, authorId)
  }

  /** The lookup is determined by its contract: any two results satisfying
      `IsAuthorLookup` are equal, so the copies cannot disagree. */
  lemma LookupUnique(users: seq<User>, authorId: string, r1: Option<User>, r2: Option<User>)
    requires IsAuthorLookup(users, authorId, r1) && IsAuthorLookup(users, authorId, r2)
    ensures r1 == r2
  {
    if r1.Some? && r2.Some? {
      var i1 :| 0 <= i1 < |users| && users[i1] == r1.value
                && forall j :: 0 <= j < i1 ==> users[j].id != authorId;
      var i2 :| 0 <= i2 < |users| && users[i2] == r2.value
                && forall j :: 0 <= j < i2 ==> users[j].id != authorId;
      if i1 < i2 {
        assert users[i1].id != authorId;
      } else if i2 < i1 {
        assert users[i2].id != authorId;
      }
    }
  }

  /** A user placed in front of the list is found when the id is theirs,
      and otherwise hides nothing behind it. */
  lemma LookupCons(u: User, users: seq<User>, authorId: string)
    ensures u.id == authorId ==> UserById([u] + users, authorId) == Some(u)
    ensures u.id != authorId ==> UserById([u] + users, authorId) == UserById(users, authorId)
  {
    var r := UserById([u] + users, authorId);
    if u.id == authorId {
      LookupUnique([u] + users, authorId, r, Some(u));
    } else {
      var r' := UserById(users, authorId);
      assert IsAuthorLookup([u] + users, authorId, r') by {
        if r'.Some? {
          var i :| 0 <= i < |users| && users[i] == r'.value
                   && forall j :: 0 <= j < i ==> users[j].id != authorId;
          assert ([u] + users)[i + 1] == r'.value;
          assert forall j :: 0 <= j < i + 1 ==> ([u] + users)[j].id != authorId by {
            forall j | 0 <= j < i + 1
              ensures ([u] + users)[j].id != authorId
            {
              if j > 0 {
                assert ([u] + users)[j] == users[j - 1];
              }
            }
          }
        } else {
          forall j | 0 <= j < |[u] + users|
            ensures ([u] + users)[j].id != authorId
          {
            if j > 0 {
              assert ([u] + users)[j] == users[j - 1];
            }
          }
        }
      }
      LookupUnique([u] + users, authorId, r, r');
    }
  }
}
