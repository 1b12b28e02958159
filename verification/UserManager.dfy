/** The pool of user objects and the id map (Content/user_manager.h, Content/user_manager.cpp). */
module UserManagers {
  import opened Bytes
  import opened Users
  import opened Chats
  import opened Rooms

  /** Every user object is sound, and no two share a receive buffer. */
  ghost predicate AllUsers(pool: seq<User>)
    reads pool, set u | u in pool :: u.packetBuf
  {
    && IsPool(pool)
    && (forall i :: 0 <= i < |pool| ==> pool[i].Valid())
    && (forall i, j :: 0 <= i < j < |pool| ==> pool[i].packetBuf != pool[j].packetBuf)
  }

  lemma PoolGrows(pool: seq<User>, u: User)
    requires AllUsers(pool) && u.Valid() && u.sessionIdx == |pool|
    requires forall i :: 0 <= i < |pool| ==> pool[i].packetBuf != u.packetBuf
    ensures AllUsers(pool + [u])
  {
  }

  class UserManager {
    var userObjPool: seq<User>
    var userIdMap: map<ByteString, int>

    constructor ()
      ensures userObjPool == [] && userIdMap == map[]
    {
      userObjPool := [];
      userIdMap := map[];
    }

    method Init()
      requires userObjPool == []
      modifies this`userObjPool
      ensures AllUsers(userObjPool) && |userObjPool| == MAX_USER_CNT && fresh(userObjPool)
      ensures Profiles(userObjPool) == seq(MAX_USER_CNT, _ => EMPTY_PROFILE)
    {
      for i := 0 to MAX_USER_CNT
        invariant |userObjPool| == i && fresh(userObjPool) && AllUsers(userObjPool)
        invariant forall k :: 0 <= k < i ==> ProfileOf(userObjPool[k]) == EMPTY_PROFILE
        invariant forall k :: 0 <= k < i ==> fresh(userObjPool[k].packetBuf)
      {
        var u := new User(i);
        PoolGrows(userObjPool, u);
        userObjPool := userObjPool + [u];
      }
    }

    method GetUserByIndex(i: int) returns (u: Option<User>)
      ensures u == if 0 <= i < |userObjPool| then Some(userObjPool[i]) else None
    {
      if i < 0 || i >= |userObjPool| { return None; }
      return Some(userObjPool[i]);
    }

    /** The look-up may insert: `contains` is asked about the C string, `operator[]` about the whole. */
    method FindUserIndexByID(userId: ByteString) returns (i: int)
      modifies this`userIdMap
      ensures (i, userIdMap) == Chats.FindUserIndexByID(old(userIdMap), userId)
    {
      if CString(userId) in userIdMap {
        if userId !in userIdMap { userIdMap := userIdMap[userId := 0]; }
        return userIdMap[userId];
      }
      return -1;
    }

    method DeleteUserInfo(userId: ByteString)
      modifies this`userIdMap
      ensures userIdMap == old(userIdMap) - {userId}
    {
      if userId in userIdMap { userIdMap := userIdMap - {userId}; }
    }

    method AddUser(userId: ByteString, i: int)
      requires 0 <= i < |userObjPool|
      modifies this`userIdMap, userObjPool[i]
      ensures ProfileOf(userObjPool[i]) == old(ProfileOf(userObjPool[i])).(domain := InLobby, id := userId)
      ensures userIdMap == AddId(old(userIdMap), userId, i)
    {
      userObjPool[i].SetLogin(userId);
      if CString(userId) !in userIdMap { userIdMap := userIdMap[CString(userId) := i]; }
    }

    method SetUserLogin(i: int)
      requires 0 <= i < |userObjPool|
      modifies this`userIdMap, userObjPool[i]
      ensures ProfileOf(userObjPool[i]) == old(ProfileOf(userObjPool[i])).(domain := InLobby, confirmed := true)
      ensures userIdMap == AddId(old(userIdMap), old(userObjPool[i].userId), i)
    {
      var u := userObjPool[i];
      AddUser(u.userId, i);
      u.confirmed := true;
    }

    method SetUserID(i: int, userId: ByteString)
      requires 0 <= i < |userObjPool|
      modifies userObjPool[i]
      ensures ProfileOf(userObjPool[i]) == old(ProfileOf(userObjPool[i])).(id := userId)
    {
      userObjPool[i].userId := userId;
    }
  }
}
