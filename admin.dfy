/**
 * AdminPanel: the hidden page that edits one user's xp, level and streak and that resets a user
 * to a fresh account. The selected user and the edit form are a class; the tables are the store.
 */
module AdminPanel {
  import opened Wrappers
  import opened Backend

  /** The edit form. */
  datatype EditData = EditData(xp: int, level: int, streak: int)

  const InitialEdit := EditData(0, 1, 0)

  /** The profile an edit form describes. */
  function AsProfile(e: EditData): Profile {
    Profile(e.xp, e.level, e.streak)
  }

  /** The form filled from a stored profile. */
  function FromProfile(p: Profile): (e: EditData)
    ensures AsProfile(e) == p
  {
    EditData(p.xp, p.level, p.streak)
  }

  /** `parseInt(v) || 0`: `None` stands for NaN; NaN and 0 are both falsy, so both give 0. */
  function ParseCount(v: Option<int>): (n: int)
    ensures v.Some? ==> n == v.value
    ensures v.None? ==> n == 0
  {
    if v.Some? && v.value != 0 then v.value else 0
  }

  /** `parseInt(v) || 1`: NaN and 0 both give level 1, so the form never holds level 0. */
  function ParseLevel(v: Option<int>): (n: int)
    ensures n != 0
    ensures v.Some? && v.value != 0 ==> n == v.value
    ensures v.None? || v.value == 0 ==> n == 1
  {
    if v.Some? && v.value != 0 then v.value else 1
  }

  /** The profiles table after a successful save: the selected row takes the form, level as typed. */
  function SaveEffect(profiles: map<UserId, Profile>, user: UserId, e: EditData): (r: map<UserId, Profile>)
    ensures r.Keys == profiles.Keys
    ensures user in profiles ==> r[user] == AsProfile(e)
    ensures forall u :: u in profiles && u != user ==> r[u] == profiles[u]
  {
    if user in profiles then profiles[user := AsProfile(e)] else profiles
  }

  /** The form `handleUserSelect` fills in for a user, if the user is listed. */
  function Loaded(profiles: map<UserId, Profile>, user: UserId): (e: Option<EditData>)
    ensures e.Some? <==> user in profiles
    ensures e.Some? ==> AsProfile(e.value) == profiles[user]
  {
    if user in profiles then Some(FromProfile(profiles[user])) else None
  }

  /** Selecting a user right after saving that user's form shows the form as it was saved. */
  lemma SaveThenSelect(profiles: map<UserId, Profile>, user: UserId, e: EditData)
    requires user in profiles
    ensures Loaded(SaveEffect(profiles, user, e), user) == Some(e)
  {
  }

  /** The four writes of `handleReset`, in the order they run. */
  datatype ResetStep = ResetProfile | DeleteTopics | DeleteDaily | DeleteModules

  function Rank(step: ResetStep): nat {
    match step
    case ResetProfile => 0
    case DeleteTopics => 1
    case DeleteDaily => 2
    case DeleteModules => 3
  }

  /** A step takes effect when no step up to and including it fails; the first error ends the sequence. */
  predicate Ran(step: ResetStep, failsAt: Option<ResetStep>) {
    failsAt.None? || Rank(step) < Rank(failsAt.value)
  }

  function ProfileReset(profiles: map<UserId, Profile>, user: UserId): (r: map<UserId, Profile>)
    ensures r.Keys == profiles.Keys
    ensures user in profiles ==> r[user] == Profile(0, 1, 0)
    ensures forall u :: u in profiles && u != user ==> r[u] == profiles[u]
  {
    SaveEffect(profiles, user, InitialEdit)
  }

  /** `delete().eq("user_id", user)` on a table keyed by (user, ...): exactly the user's rows go. */
  function DropUser<K(==,!new), V>(rows: map<(UserId, K), V>, user: UserId): (r: map<(UserId, K), V>)
    ensures forall k :: k in r <==> k in rows && k.0 != user
    ensures forall k :: k in r ==> r[k] == rows[k]
  {
    map k | k in rows && k.0 != user :: rows[k]
  }

  function DropModules(rows: map<UserId, seq<ModuleProgressRow>>, user: UserId): (r: map<UserId, seq<ModuleProgressRow>>)
    ensures r.Keys == rows.Keys - {user}
    ensures forall u :: u in r ==> r[u] == rows[u]
  {
    rows - {user}
  }

  /** The tables after a confirmed reset of `user` whose first failing write, if any, is `failsAt`. */
  function ResetEffect(db: Db, user: UserId, failsAt: Option<ResetStep>): (r: Db)
    ensures r.profiles == if Ran(ResetProfile, failsAt) then ProfileReset(db.profiles, user) else db.profiles
    ensures r.topicProgress == if Ran(DeleteTopics, failsAt) then DropUser(db.topicProgress, user) else db.topicProgress
    ensures r.dailyProgress == if Ran(DeleteDaily, failsAt) then DropUser(db.dailyProgress, user) else db.dailyProgress
    ensures r.moduleProgress == if Ran(DeleteModules, failsAt) then DropModules(db.moduleProgress, user) else db.moduleProgress
  {
    Db(if Ran(ResetProfile, failsAt) then ProfileReset(db.profiles, user) else db.profiles,
       if Ran(DeleteTopics, failsAt) then DropUser(db.topicProgress, user) else db.topicProgress,
       if Ran(DeleteDaily, failsAt) then DropUser(db.dailyProgress, user) else db.dailyProgress,
       if Ran(DeleteModules, failsAt) then DropModules(db.moduleProgress, user) else db.moduleProgress)
  }

  /** The writes are not atomic: a later step runs only if every earlier one did. */
  lemma StepsRunInOrder(a: ResetStep, b: ResetStep, failsAt: Option<ResetStep>)
    requires Rank(a) < Rank(b) && Ran(b, failsAt)
    ensures Ran(a, failsAt)
  {
  }

  /** A reset that succeeds leaves nothing of the user but a fresh profile, and leaves other users alone. */
  lemma ResetWipesUser(db: Db, user: UserId)
    ensures var r := ResetEffect(db, user, None);
      && (user in db.profiles ==> r.profiles[user] == Profile(0, 1, 0))
      && (forall t :: (user, t) !in r.topicProgress)
      && (forall d :: (user, d) !in r.dailyProgress)
      && user !in r.moduleProgress
      && (forall u :: u in db.profiles && u != user ==> r.profiles[u] == db.profiles[u])
      && (forall k :: k in db.topicProgress && k.0 != user ==> k in r.topicProgress && r.topicProgress[k] == db.topicProgress[k])
      && (forall k :: k in db.dailyProgress && k.0 != user ==> k in r.dailyProgress && r.dailyProgress[k] == db.dailyProgress[k])
      && (forall u :: u in db.moduleProgress && u != user ==> u in r.moduleProgress && r.moduleProgress[u] == db.moduleProgress[u])
  {
  }

  /** The selected user and the edit form. `""` means no user is selected. */
  class Panel {
    var selectedUserId: UserId
    var editData: EditData

    constructor ()
      ensures selectedUserId == "" && editData == InitialEdit
    {
      selectedUserId := "";
      editData := InitialEdit;
    }

    /** `handleUserSelect`: select the user and copy the stored values into the form when the user is listed. */
    method UserSelect(db: Store, userId: UserId)
      modifies this
      ensures selectedUserId == userId
      ensures editData == (if userId in db.profiles then FromProfile(db.profiles[userId]) else old(editData))
    {
      selectedUserId := userId;
      var user := Loaded(db.profiles, userId);
      if user.Some? {
        editData := user.value;
      }
    }

    /** The three inputs' change handlers. */
    method ChangeXp(v: Option<int>)
      modifies this
      ensures editData == old(editData).(xp := ParseCount(v)) && selectedUserId == old(selectedUserId)
    {
      editData := editData.(xp := ParseCount(v));
    }

    method ChangeLevel(v: Option<int>)
      modifies this
      ensures editData == old(editData).(level := ParseLevel(v)) && selectedUserId == old(selectedUserId)
    {
      editData := editData.(level := ParseLevel(v));
    }

    method ChangeStreak(v: Option<int>)
      modifies this
      ensures editData == old(editData).(streak := ParseCount(v)) && selectedUserId == old(selectedUserId)
    {
      editData := editData.(streak := ParseCount(v));
    }

    /**
     * `handleSave`: without a selected user, or when the update fails, nothing changes; otherwise
     * the selected profile takes the form's values, the level exactly as typed.
     */
    method Save(db: Store, fails: bool)
      modifies db`profiles
      ensures selectedUserId == "" || fails ==> db.profiles == old(db.profiles)
      ensures selectedUserId != "" && !fails ==> db.profiles == SaveEffect(old(db.profiles), selectedUserId, editData)
    {
      if selectedUserId == "" {
        return;
      }
      if fails {
        return;
      }
      db.profiles := SaveEffect(db.profiles, selectedUserId, editData);
    }

    /**
     * `handleReset`: needs a selected user and the confirmation; runs the four writes in order,
     * stopping at the first failure; only a full success clears the form.
     */
    method Reset(db: Store, confirmed: bool, failsAt: Option<ResetStep>)
      modifies db, this
      ensures selectedUserId == old(selectedUserId)
      ensures old(selectedUserId) == "" || !confirmed ==>
        db.Tables() == old(db.Tables()) && editData == old(editData)
      ensures old(selectedUserId) != "" && confirmed ==>
        db.Tables() == ResetEffect(old(db.Tables()), selectedUserId, failsAt) &&
        editData == (if failsAt.None? then InitialEdit else old(editData))
    {
      if selectedUserId == "" || !confirmed {
        return;
      }
      var user := selectedUserId;
      if failsAt == Some(ResetProfile) {
        return;
      }
      db.profiles := ProfileReset(db.profiles, user);
      if failsAt == Some(DeleteTopics) {
        return;
      }
      db.topicProgress := DropUser(db.topicProgress, user);
      if failsAt == Some(DeleteDaily) {
        return;
      }
      db.dailyProgress := DropUser(db.dailyProgress, user);
      if failsAt == Some(DeleteModules) {
        return;
      }
      db.moduleProgress := DropModules(db.moduleProgress, user);
      editData := InitialEdit;
    }
  }
}
