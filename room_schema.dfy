/** The Room document of server/models/Room.js: the fields a stored chat room has,
    the schema's validity rules, and its defaults. ObjectIds are natural numbers;
    an absent field is `None`. */
module RoomSchema {
  import opened JsString

  /** One entry of `members`. */
  datatype MemberDoc = MemberDoc(user: Option<nat>, joinedAt: Option<int>, role: Option<string>)

  datatype RoomDoc = RoomDoc(
    roomId: Option<string>,
    name: Option<string>,
    description: Option<string>,
    creator: Option<nat>,
    members: seq<MemberDoc>,
    isPrivate: Option<bool>,
    maxMembers: Option<int>,
    lastActivity: Option<int>)

  const MaxNameLength := 50
  const MaxDescriptionLength := 200
  const DefaultMaxMembers := 100

  /** The `role` enum; an absent role passes (the default fills it in). */
  predicate ValidRole(role: Option<string>) {
    role.None? || role.value in {"admin", "member"}
  }

  /** The schema's validators; `required` on a String path is JavaScript
      truthiness (`Truthy`). */
  predicate ValidRoom(r: RoomDoc) {
    && Truthy(r.roomId)
    && Truthy(r.name) && Utf16Length(r.name.value) <= MaxNameLength
    && (r.description.Some? ==> Utf16Length(r.description.value) <= MaxDescriptionLength)
    && r.creator.Some?
    && forall m :: m in r.members ==> ValidRole(m.role)
  }

  /** A member entry with its defaults: joined now, role `member`. */
  function MemberDefaults(m: MemberDoc, now: int): (d: MemberDoc)
    ensures d.user == m.user && d.joinedAt.Some? && d.role.Some?
    ensures m.role.None? ==> d.role == Some("member")
    ensures m.role.Some? ==> d.role == m.role
    ensures m.joinedAt.Some? ==> d.joinedAt == m.joinedAt
  {
    MemberDoc(m.user, if m.joinedAt.Some? then m.joinedAt else Some(now),
              if m.role.Some? then m.role else Some("member"))
  }

  /** A room with its defaults: public, at most 100 members, active now, and every
      member entry defaulted. Fields already set are kept. */
  function RoomDefaults(r: RoomDoc, now: int): (d: RoomDoc)
    ensures d.roomId == r.roomId && d.name == r.name && d.description == r.description && d.creator == r.creator
    ensures |d.members| == |r.members|
    ensures forall i :: 0 <= i < |r.members| ==> d.members[i] == MemberDefaults(r.members[i], now)
    ensures r.isPrivate.None? ==> d.isPrivate == Some(false)
    ensures r.maxMembers.None? ==> d.maxMembers == Some(DefaultMaxMembers)
    ensures d.isPrivate.Some? && d.maxMembers.Some? && d.lastActivity.Some?
  {
    RoomDoc(r.roomId, r.name, r.description, r.creator,
            seq(|r.members|, i requires 0 <= i < |r.members| => MemberDefaults(r.members[i], now)),
            if r.isPrivate.Some? then r.isPrivate else Some(false),
            if r.maxMembers.Some? then r.maxMembers else Some(DefaultMaxMembers),
            if r.lastActivity.Some? then r.lastActivity else Some(now))
  }

  /** Filling in defaults never decides validity. */
  lemma DefaultsKeepValidity(r: RoomDoc, now: int)
    ensures ValidRoom(RoomDefaults(r, now)) <==> ValidRoom(r)
  {
    var d := RoomDefaults(r, now);
    if ValidRoom(r) {
      forall m | m in d.members ensures ValidRole(m.role) {
        var i :| 0 <= i < |d.members| && d.members[i] == m;
        assert r.members[i] in r.members;
      }
    }
    if ValidRoom(d) {
      forall m | m in r.members ensures ValidRole(m.role) {
        var i :| 0 <= i < |r.members| && r.members[i] == m;
        assert d.members[i] in d.members;
      }
    }
  }

  /** `user` has an entry in `members`: `members.some(m => m.user == user)`. */
  predicate IsMember(members: seq<MemberDoc>, user: nat) {
    exists i :: 0 <= i < |members| && members[i].user == Some(user)
  }

  /** No user has two entries. */
  predicate NoDuplicateMembers(members: seq<MemberDoc>) {
    forall i, j :: 0 <= i < j < |members| && members[i].user.Some? ==> members[i].user != members[j].user
  }
}
