/**
 The user record: the `UserRole` enumeration, the `User` record and
 `build_user`, which assembles a `User` from a roster entry and a Telegram
 account.
 The reading of the clock (`str(datetime.now())`) is the parameter `now`.
 */
module Users {
  import opened Options
  import opened Timestamps

  /** `UserRole`: the two roles, each with its display value. */
  datatype UserRole = USER | MANAGER {
    function Value(): (v: string)
      ensures v != ""
    {
      match this
      case USER => "Пользователь"
      case MANAGER => "Менеджер"
    }
  }

  /** `UserRole(v)`: the role whose value is `v`; `None` where Python raises `ValueError`. */
  function RoleOf(v: string): (r: Option<UserRole>)
    ensures r.Some? <==> v == USER.Value() || v == MANAGER.Value()
    ensures r.Some? ==> r.value.Value() == v
  {
    if v == USER.Value() then Some(USER)
    else if v == MANAGER.Value() then Some(MANAGER)
    else None
  }

  /** A roster entry as loaded from the users file. Only `full_name` and `phone_num` are read. */
  datatype RosterRecord = RosterRecord(adress: string, fullName: string, phoneNum: int, cleanTime: string)

  /** The Telegram account object. Only `id`, `username` and `first_name` are read. */
  datatype TelegramUser = TelegramUser(id: int, username: string, firstName: string, isBot: bool, languageCode: string)

  /**
   `User`. The role field holds the role's display value: `build_user` stores
   `UserRole.USER.value`, a string, although the field is annotated `UserRole`.
   */
  datatype User = User(
    uid: int,
    username: string,
    firstName: string,
    fullName: string,
    phoneNum: int,
    role: string,
    created: string,
    updated: string)

  /**
   `build_user(user_data, tg_data)`: the Telegram account gives the identity,
   the roster entry gives the name and phone number, the role is the plain
   user's, and the one clock reading is both the creation and the update time.
   */
  function BuildUser(roster: RosterRecord, tg: TelegramUser, now: string): (u: User)
    ensures u.uid == tg.id && u.username == tg.username && u.firstName == tg.firstName
    ensures u.fullName == roster.fullName && u.phoneNum == roster.phoneNum
    ensures RoleOf(u.role) == Some(USER)
    ensures u.created == u.updated == now
  {
    User(tg.id, tg.username, tg.firstName, roster.fullName, roster.phoneNum, USER.Value(), now, now)
  }

  // ---------------------------------------------------------------------

  /** Reading a role's value back gives the role: `UserRole(r.value) is r`. */
  lemma RoleRoundTrip(r: UserRole)
    ensures RoleOf(r.Value()) == Some(r)
  {
  }

  /** The two roles have different values, so `RoleOf` tells them apart. */
  lemma RoleValuesDiffer()
    ensures USER.Value() != MANAGER.Value()
    ensures RoleOf(USER.Value()) != RoleOf(MANAGER.Value())
  {
    assert USER.Value()[0] != MANAGER.Value()[0];
  }

  /** Whatever the inputs, a freshly built user is never a manager. */
  lemma BuiltUserIsNoManager(roster: RosterRecord, tg: TelegramUser, now: string)
    ensures BuildUser(roster, tg, now).role != MANAGER.Value()
    ensures RoleOf(BuildUser(roster, tg, now).role) != Some(MANAGER)
  {
    RoleValuesDiffer();
  }

  /**
   Only the fields `build_user` reads matter: two Telegram accounts that agree
   on `id`, `username` and `first_name`, and two roster entries that agree on
   `full_name` and `phone_num`, build the same user.
   */
  lemma BuildUserReadsOnly(r1: RosterRecord, r2: RosterRecord, t1: TelegramUser, t2: TelegramUser, now: string)
    requires t1.id == t2.id && t1.username == t2.username && t1.firstName == t2.firstName
    requires r1.fullName == r2.fullName && r1.phoneNum == r2.phoneNum
    ensures BuildUser(r1, t1, now) == BuildUser(r2, t2, now)
  {
  }

  /**
   Built with the text `str(datetime.now())` of a clock reading `t`, the
   user's `created` reads back as `t` through the same cut-and-parse that
   `get_datetime_passed_seconds` applies, and `updated` is zero seconds away
   from it.
   */
  lemma CreatedIsNow(roster: RosterRecord, tg: TelegramUser, t: DateTime, micro: nat, clock: string, reverse: bool)
    requires ValidDateTime(t) && micro < 1000000
    ensures var u := BuildUser(roster, tg, NowText(t, micro));
      ParseTimestamp(BeforeFirstDot(u.created)) == Some(t)
      && PassedSeconds(u.created, Some(u.updated), clock, reverse) == Some(0)
  {
    var u := BuildUser(roster, tg, NowText(t, micro));
    NowTextParses(t, micro);
    SameInstantIsZero(u.created, clock, reverse);
  }

  /** The record built in the repository's own test of `build_user`. */
  lemma BuildUserExample(now: string)
    ensures var u := BuildUser(
        RosterRecord("", "Иванов Иван Иванович", 79787873919, ""),
        TelegramUser(5156307333, "DmitrydevPy", "Dmitry", false, "ru"),
        now);
      u == User(5156307333, "DmitrydevPy", "Dmitry", "Иванов Иван Иванович", 79787873919, "Пользователь", now, now)
  {
  }
}
