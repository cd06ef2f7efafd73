/** The console side of the mini order service that decides something:
    reading a password key by key, registering and logging in against the
    data directory, the automatic loading of saved orders at login, adding
    an order and adding up all orders. The data directory is a map from
    user name to what that user's directory holds; JSON and XML files are
    given by what their loaders return. */
module MiniOrderApp {
  import opened Wrappers
  import opened Strings
  import opened Orders
  import opened OrderCodec

  // ------------------------------------------------------------ password

  datatype ConsoleKey = Enter | Backspace | OtherKey

  /** `ConsoleKeyInfo`: the key and the character it types. */
  datatype KeyInfo = KeyInfo(key: ConsoleKey, keyChar: char)

  /** `char.IsControl`: U+0000 to U+001F and U+007F to U+009F. NUL, tab,
      line feed, carriage return and backspace are control characters;
      printable ASCII is not. */
  predicate IsControl(c: char)
    ensures c in {'\0', '\t', '\n', '\r', '\U{8}'} ==> IsControl(c)
    ensures ' ' <= c <= '~' ==> !IsControl(c)
  {
    c <= '\U{1F}' || ('\U{7F}' <= c <= '\U{9F}')
  }

  /** The effect of one key other than Enter on the typed text: it never
      changes what was typed before, but erases one character (Backspace
      only) or appends the key's character (a printable one only). */
  function ApplyKey(typed: string, k: KeyInfo): (r: string)
    ensures |typed| - 1 <= |r| <= |typed| + 1
    ensures |r| <= |typed| ==> r == typed[..|r|]
    ensures |r| < |typed| ==> k.key == Backspace
    ensures |r| > |typed| ==> r == typed + [k.keyChar] && !IsControl(k.keyChar)
  {
    if k.key == Backspace && |typed| > 0 then typed[..|typed| - 1]
    else if !IsControl(k.keyChar) then typed + [k.keyChar]
    else typed
  }

  /** The text after the keys `keys`, none of them Enter, in order. */
  function Typed(keys: seq<KeyInfo>): (r: string)
    ensures |r| <= |keys|
    decreases |keys|
  {
    if keys == [] then "" else ApplyKey(Typed(keys[..|keys| - 1]), keys[|keys| - 1])
  }

  /** Where the first Enter is, or the number of keys if none is. */
  function EnterPosition(keys: seq<KeyInfo>): (n: nat)
    ensures n <= |keys|
    ensures n < |keys| ==> keys[n].key == Enter
    ensures forall i :: 0 <= i < n ==> keys[i].key != Enter
    decreases |keys|
  {
    if keys == [] then 0
    else if keys[0].key == Enter then 0
    else
      var n := EnterPosition(keys[1..]) + 1;
      assert forall i :: 1 <= i < |keys| ==> keys[i] == keys[1..][i - 1];
      n
  }

  /** What `ReadPassword` returns for the keys pressed: no longer than the
      keys before Enter, and without control characters. */
  function Password(keys: seq<KeyInfo>): (password: string)
    ensures |password| <= EnterPosition(keys)
    ensures forall i :: 0 <= i < |password| ==> !IsControl(password[i])
  {
    TypedBounds(keys[..EnterPosition(keys)]);
    Typed(keys[..EnterPosition(keys)])
  }

  /** `ReadPassword`: keys are read until Enter. */
  method ReadPassword(keys: seq<KeyInfo>) returns (password: string)
    ensures password == Password(keys)
  {
    var sb := "";
    var i := 0;
    while i < |keys|
      invariant 0 <= i <= EnterPosition(keys)
      invariant sb == Typed(keys[..i])
    {
      var k := keys[i];
      if k.key == Enter {
        break;
      }
      if k.key == Backspace && |sb| > 0 {
        sb := sb[..|sb| - 1];
      } else if !IsControl(k.keyChar) {
        sb := sb + [k.keyChar];
      }
      assert keys[..i + 1][..i] == keys[..i];
      i := i + 1;
    }
    password := sb;
  }

  /** The text has at most one character per key and no control character. */
  lemma {:induction false} TypedBounds(keys: seq<KeyInfo>)
    ensures |Typed(keys)| <= |keys|
    ensures forall i :: 0 <= i < |Typed(keys)| ==> !IsControl(Typed(keys)[i])
    decreases |keys|
  {
    if keys != [] {
      TypedBounds(keys[..|keys| - 1]);
    }
  }

  /** Printable keys without Backspace type exactly their characters. */
  lemma {:induction false} TypedPrintable(keys: seq<KeyInfo>)
    requires forall i :: 0 <= i < |keys| ==> keys[i].key != Backspace && !IsControl(keys[i].keyChar)
    ensures |Typed(keys)| == |keys|
    ensures forall i :: 0 <= i < |keys| ==> Typed(keys)[i] == keys[i].keyChar
    decreases |keys|
  {
    if keys != [] {
      var init := keys[..|keys| - 1];
      assert forall i :: 0 <= i < |init| ==> init[i] == keys[i];
      TypedPrintable(init);
    }
  }

  /** Typing a printable character and erasing it leaves the text as it was. */
  lemma TypeThenErase(keys: seq<KeyInfo>, c: char, b: char)
    requires !IsControl(c)
    ensures Typed(keys + [KeyInfo(OtherKey, c), KeyInfo(Backspace, b)]) == Typed(keys)
  {
    var ks := keys + [KeyInfo(OtherKey, c), KeyInfo(Backspace, b)];
    assert ks[..|ks| - 1] == keys + [KeyInfo(OtherKey, c)];
    assert (keys + [KeyInfo(OtherKey, c)])[..|keys|] == keys;
  }

  /** Keys after the first Enter are not part of the password. */
  lemma EnterEndsPassword(keys: seq<KeyInfo>, c: char, more: seq<KeyInfo>)
    requires forall i :: 0 <= i < |keys| ==> keys[i].key != Enter
    ensures Password(keys + [KeyInfo(Enter, c)] + more) == Typed(keys)
  {
    var ks := keys + [KeyInfo(Enter, c)] + more;
    assert EnterPosition(ks) == |keys| by {
      assert ks[|keys|].key == Enter;
      assert forall i :: 0 <= i < |keys| ==> ks[i] == keys[i];
    }
    assert ks[..|keys|] == keys;
  }

  // ------------------------------------------------------ data directory

  /** `user.json` as `LoadUserMeta` reads it. */
  datatype Meta = Meta(username: string, password: string, orders: seq<Order>)

  /** An orders file in JSON or XML: there is none, its loader returns
      null (unreadable or corrupt), or it returns a list. */
  datatype OrdersFile = NoFile | Unreadable | Holds(orders: seq<Order>)

  /** A user's directory: `meta` is `None` when `LoadUserMeta` returns
      null; `binary` is the content of `orders.dat`, if there is one. */
  datatype UserDir = UserDir(meta: Option<Meta>, json: OrdersFile, xml: OrdersFile, binary: Option<seq<Token>>)

  /** The `data` directory: the existing user directories, by name; a
      directory's `meta` is `None` when its `user.json` is missing or
      unreadable. The name `""` stands for `data` itself, which always
      exists and holds a `user.json` only once one has been written for a
      user whose stored name is empty. */
  class DataDir {
    var users: map<string, UserDir>

    constructor ()
      ensures users == map[]
    {
      users := map[];
    }
  }

  /** No white space at either end. */
  predicate Trimmed(s: string) {
    s == [] || (s[0] !in WHITE_SPACE && s[|s| - 1] !in WHITE_SPACE)
  }

  /** `(Console.ReadLine() ?? "").Trim()`. */
  function ReadName(line: Option<string>): (name: string)
    ensures Trimmed(name)
  {
    Trim(line.GetOr(""), WHITE_SPACE)
  }

  datatype RegisterOutcome = EmptyUsername | UserExists | EmptyPassword | Registered(username: string)

  /** What `Register` decides for a typed user name and password: a
      registered name is trimmed, not blank and not taken, and the password
      is not empty. */
  function RegisterDecision(users: map<string, UserDir>, line: Option<string>, password: string): (r: RegisterOutcome)
    ensures r.Registered? ==> r.username == ReadName(line) && r.username != [] && Trimmed(r.username)
                              && r.username !in users && password != []
  {
    var username := ReadName(line);
    if username == [] then EmptyUsername
    else if username in users then UserExists
    else if password == [] then EmptyPassword
    else Registered(username)
  }

  /** The directory a new user gets: `user.json` with no orders, and no
      orders file, so the next login loads the orders of `user.json`. */
  function NewUserDir(username: string, password: string): (dir: UserDir)
    ensures dir.meta == Some(Meta(username, password, []))
    ensures forall conv: PriceConversion, saved :: AutoLoad(conv, dir, saved) == saved
  {
    UserDir(Some(Meta(username, password, [])), NoFile, NoFile, None)
  }

  /** Registration succeeds exactly for a user name that is not blank and
      not taken, with a non-empty password; the name checks come first. */
  lemma RegisterAcceptsIff(users: map<string, UserDir>, line: Option<string>, password: string)
    ensures RegisterDecision(users, line, password).Registered? <==>
              (exists i :: 0 <= i < |line.GetOr("")| && line.GetOr("")[i] !in WHITE_SPACE)
              && ReadName(line) !in users && password != []
    ensures RegisterDecision(users, line, password) == EmptyUsername <==>
              forall i :: 0 <= i < |line.GetOr("")| ==> line.GetOr("")[i] in WHITE_SPACE
  {
    TrimEmptyIffBlank(line.GetOr(""), WHITE_SPACE);
  }

  /** `Register`: the user name line, then (if the name is usable) the keys
      of the password. */
  method Register(disk: DataDir, line: Option<string>, keys: seq<KeyInfo>) returns (outcome: RegisterOutcome)
    modifies disk
    ensures outcome == RegisterDecision(old(disk.users), line, Password(keys))
    ensures outcome.Registered? ==>
              disk.users == old(disk.users)[outcome.username := NewUserDir(outcome.username, Password(keys))]
    ensures !outcome.Registered? ==> disk.users == old(disk.users)
  {
    var username := ReadName(line);
    if username == [] {
      return EmptyUsername;
    }
    if username in disk.users {
      return UserExists;
    }
    var password := ReadPassword(keys);
    if password == [] {
      return EmptyPassword;
    }
    disk.users := disk.users[username := NewUserDir(username, password)];
    outcome := Registered(username);
  }

  // --------------------------------------------------------------- login

  /** The orders loaded at login: `orders.json` if it exists, else
      `orders.xml`, else `orders.dat`, a loader's null counting as no
      orders; with none of the three the orders of `user.json` stay. */
  function AutoLoad(conv: PriceConversion, dir: UserDir, saved: seq<Order>): (r: seq<Order>)
    ensures || r == saved || r == []
            || (dir.json.Holds? && r == dir.json.orders)
            || (dir.xml.Holds? && r == dir.xml.orders)
            || (dir.binary.Some? && Decode(conv, dir.binary.value) == Some(r))
  {
    match dir.json
    case Holds(orders) => orders
    case Unreadable => []
    case NoFile =>
      match dir.xml
      case Holds(orders) => orders
      case Unreadable => []
      case NoFile =>
        match dir.binary
        case Some(ts) => Decode(conv, ts).GetOr([])
        case None => saved
  }

  /** Only the first orders file that exists is looked at. */
  lemma AutoLoadPriority(conv: PriceConversion, dir: UserDir, saved: seq<Order>, xml: OrdersFile, binary: Option<seq<Token>>)
    ensures !dir.json.NoFile? ==>
              AutoLoad(conv, dir, saved) == AutoLoad(conv, dir.(xml := xml, binary := binary), [])
    ensures dir.json.NoFile? && !dir.xml.NoFile? ==>
              AutoLoad(conv, dir, saved) == AutoLoad(conv, dir.(binary := binary), [])
    ensures dir.json.NoFile? && dir.xml.NoFile? && dir.binary.Some? ==>
              AutoLoad(conv, dir, saved) == Decode(conv, dir.binary.value).GetOr([])
    ensures dir.json.NoFile? && dir.xml.NoFile? && dir.binary.None? ==>
              AutoLoad(conv, dir, saved) == saved
  {
  }

  /** A binary file cut short loads as no orders at all, never as the first
      few of them. */
  lemma AutoLoadTruncatedBinary(conv: PriceConversion, dir: UserDir, saved: seq<Order>, orders: seq<Order>, k: nat)
    requires dir.json.NoFile? && dir.xml.NoFile?
    requires k < |Encode(conv, orders)| && dir.binary == Some(Encode(conv, orders)[..k])
    ensures AutoLoad(conv, dir, saved) == []
  {
    Truncated(conv, orders, k);
  }

  datatype LoginOutcome = UserNotFound | DataCorrupted | WrongPassword | LoggedIn(user: Meta)

  /** What `Login` decides. An empty name denotes the `data` directory
      itself, which always exists, so without its `user.json` the data
      count as corrupted rather than the user as unknown. */
  function LoginDecision(conv: PriceConversion, users: map<string, UserDir>, username: string, password: string)
    : (r: LoginOutcome)
    ensures r == UserNotFound ==> username != [] && username !in users
    ensures r == WrongPassword ==>
              username in users && users[username].meta.Some? && users[username].meta.value.password != password
    ensures r.LoggedIn? ==> username in users && users[username].meta.Some?
                            && r.user.(orders := []) == users[username].meta.value.(orders := [])
  {
    if username !in users then (if username == [] then DataCorrupted else UserNotFound)
    else
      var dir := users[username];
      if dir.meta.None? then DataCorrupted
      else if dir.meta.value.password != password then WrongPassword
      else LoggedIn(dir.meta.value.(orders := AutoLoad(conv, dir, dir.meta.value.orders)))
  }

  /** Login succeeds exactly for a stored user whose `user.json` reads back
      and holds exactly the typed password. */
  lemma LoginAcceptsIff(conv: PriceConversion, users: map<string, UserDir>, username: string, password: string)
    ensures LoginDecision(conv, users, username, password).LoggedIn? <==>
              username in users && users[username].meta.Some?
              && users[username].meta.value.password == password
    ensures LoginDecision(conv, users, username, password).LoggedIn? ==>
              LoginDecision(conv, users, username, password).user.password == password
  {
  }

  /** Someone who has just registered can log in with the same name and
      password, and starts with no orders. */
  lemma RegisteredUserCanLogIn(conv: PriceConversion, users: map<string, UserDir>, line: Option<string>, keys: seq<KeyInfo>)
    requires RegisterDecision(users, line, Password(keys)).Registered?
    ensures var name := ReadName(line);
            var after := users[name := NewUserDir(name, Password(keys))];
            LoginDecision(conv, after, name, Password(keys)) == LoggedIn(Meta(name, Password(keys), []))
  {
  }

  /** `Login`: the user name line and the password keys; `null` for every
      refusal. */
  method Login(conv: PriceConversion, disk: DataDir, line: Option<string>, keys: seq<KeyInfo>) returns (user: UserData?)
    ensures var outcome := LoginDecision(conv, disk.users, ReadName(line), Password(keys));
            (user == null <==> !outcome.LoggedIn?)
            && (user != null ==>
                  fresh(user) && user.username == outcome.user.username
                  && user.password == outcome.user.password && user.orders == outcome.user.orders)
  {
    var username := ReadName(line);
    var password := ReadPassword(keys);
    user := CheckLogin(conv, disk, username, password);
  }

  /** The checks `Login` makes once the name and the password are read:
      the user's directory, its `user.json`, the password, and then the
      automatic load of the orders. */
  method CheckLogin(conv: PriceConversion, disk: DataDir, username: string, password: string) returns (user: UserData?)
    ensures var outcome := LoginDecision(conv, disk.users, username, password);
            (user == null <==> !outcome.LoggedIn?)
            && (user != null ==>
                  fresh(user) && user.username == outcome.user.username
                  && user.password == outcome.user.password && user.orders == outcome.user.orders)
  {
    if username !in disk.users {
      return null;
    }
    var dir := disk.users[username];
    if dir.meta.None? || dir.meta.value.password != password {
      return null;
    }
    var meta := dir.meta.value;
    var orders := AutoLoad(conv, dir, meta.orders);
    user := new UserData(meta.username, meta.password, orders);
  }

  // --------------------------------------------------------- add order

  /** One service as typed: the name line (`None` at end of input) and the
      price line as `decimal.TryParse` reads it (`None` when it fails). */
  datatype ServiceEntry = ServiceEntry(name: Option<string>, price: Option<real>)

  /** `string.IsNullOrWhiteSpace`. */
  predicate IsBlank(line: Option<string>) {
    line.None? || forall i :: 0 <= i < |line.value| ==> line.value[i] in WHITE_SPACE
  }

  /** The service an entry with a usable name adds: none unless the price
      parsed and is not negative; the name is trimmed. */
  function Kept(e: ServiceEntry): (r: seq<Service>)
    requires e.name.Some?
    ensures |r| <= 1
    ensures r != [] <==> e.price.Some? && e.price.value >= 0.0
    ensures r != [] ==> r[0].price == e.price.value && r[0].name.Some? && Trimmed(r[0].name.value)
  {
    if e.price.Some? && e.price.value >= 0.0
    then [Service(Some(Trim(e.name.value, WHITE_SPACE)), e.price.value)]
    else []
  }

  /** The services an order gets: entries up to the first blank name, those
      with a price that parsed and is not negative, names trimmed. */
  function NewServices(entries: seq<ServiceEntry>): (r: seq<Service>)
    ensures |r| <= |entries|
    decreases |entries|
  {
    if entries == [] || IsBlank(entries[0].name) then []
    else Kept(entries[0]) + NewServices(entries[1..])
  }

  /** A service worth keeping. */
  predicate ValidService(s: Service) {
    s.price >= 0.0 && s.name.Some? && s.name.value != [] && Trimmed(s.name.value)
  }

  lemma KeptValid(e: ServiceEntry)
    requires !IsBlank(e.name)
    ensures |Kept(e)| <= 1
    ensures forall i :: 0 <= i < |Kept(e)| ==> ValidService(Kept(e)[i])
  {
    TrimEmptyIffBlank(e.name.value, WHITE_SPACE);
  }

  /** Every service kept has a non-blank trimmed name and a price of at
      least 0, and there are no more of them than entries. */
  lemma {:induction false} NewServicesValid(entries: seq<ServiceEntry>)
    ensures |NewServices(entries)| <= |entries|
    ensures forall i :: 0 <= i < |NewServices(entries)| ==> ValidService(NewServices(entries)[i])
    decreases |entries|
  {
    if entries != [] && !IsBlank(entries[0].name) {
      KeptValid(entries[0]);
      NewServicesValid(entries[1..]);
      var k := Kept(entries[0]);
      var rest := NewServices(entries[1..]);
      assert NewServices(entries) == k + rest;
      ValidConcat(k, rest);
    }
  }

  lemma ValidConcat(a: seq<Service>, b: seq<Service>)
    requires forall i :: 0 <= i < |a| ==> ValidService(a[i])
    requires forall i :: 0 <= i < |b| ==> ValidService(b[i])
    ensures forall i :: 0 <= i < |a + b| ==> ValidService((a + b)[i])
  {
    forall i | 0 <= i < |a + b|
      ensures ValidService((a + b)[i])
    {
      if i >= |a| {
        assert (a + b)[i] == b[i - |a|];
      }
    }
  }

  /** No entry is dropped when every name is filled in and every price
      parsed and is not negative: the services are the entries, in the
      order typed, each with its name trimmed and its parsed price. */
  lemma {:induction false} NewServicesKeepsAll(entries: seq<ServiceEntry>)
    requires forall i :: 0 <= i < |entries| ==>
               !IsBlank(entries[i].name) && entries[i].price.Some? && entries[i].price.value >= 0.0
    ensures |NewServices(entries)| == |entries|
    ensures forall i :: 0 <= i < |entries| ==>
              entries[i].name.Some?
              && NewServices(entries)[i] == Service(Some(Trim(entries[i].name.value, WHITE_SPACE)), entries[i].price.value)
    decreases |entries|
  {
    if entries != [] {
      var tail := entries[1..];
      assert forall i :: 1 <= i < |entries| ==> tail[i - 1] == entries[i];
      NewServicesKeepsAll(tail);
      var r := NewServices(entries);
      assert r == Kept(entries[0]) + NewServices(tail);
      forall i | 0 <= i < |entries|
        ensures entries[i].name.Some?
        ensures r[i] == Service(Some(Trim(entries[i].name.value, WHITE_SPACE)), entries[i].price.value)
      {
        if i > 0 {
          assert r[i] == NewServices(tail)[i - 1] && entries[i] == tail[i - 1];
        }
      }
    }
  }

  /** Entries after the first blank name are never read. */
  lemma NewServicesStopAtBlank(entries: seq<ServiceEntry>, blank: ServiceEntry, more: seq<ServiceEntry>)
    requires IsBlank(blank.name)
    ensures NewServices(entries + [blank] + more) == NewServices(entries + [blank])
    decreases |entries|
  {
    if entries != [] && !IsBlank(entries[0].name) {
      assert (entries + [blank] + more)[1..] == entries[1..] + [blank] + more;
      assert (entries + [blank])[1..] == entries[1..] + [blank];
      NewServicesStopAtBlank(entries[1..], blank, more);
    } else if entries == [] {
      assert (entries + [blank] + more)[0] == blank;
    }
  }

  /** The service loop of `AddOrder`. */
  method ReadServiceEntries(entries: seq<ServiceEntry>) returns (services: seq<Service>)
    ensures services == NewServices(entries)
  {
    services := [];
    var i := 0;
    while i < |entries|
      invariant 0 <= i <= |entries|
      invariant services + NewServices(entries[i..]) == NewServices(entries)
    {
      var e := entries[i];
      if IsBlank(e.name) {
        break;
      }
      assert NewServices(entries[i..]) == Kept(e) + NewServices(entries[i + 1..]) by {
        assert entries[i..][0] == e && entries[i..][1..] == entries[i + 1..];
      }
      services := services + Kept(e);
      i := i + 1;
    }
    assert NewServices(entries[i..]) == [] by {
      assert i < |entries| ==> entries[i..][0] == entries[i];
    }
    assert services + [] == services;
  }

  /** The directory map after `SaveUserMeta` writes `meta` into the
      directory of `meta.username`, which is created when missing: that
      directory's `user.json` reads back as `meta`, its orders files are
      kept, and every other directory is left alone. */
  function MetaWritten(users: map<string, UserDir>, meta: Meta): (r: map<string, UserDir>)
    ensures meta.username in r && r[meta.username].meta == Some(meta)
    ensures meta.username in users ==>
              r[meta.username].(meta := None) == users[meta.username].(meta := None)
    ensures meta.username !in users ==> r[meta.username] == UserDir(Some(meta), NoFile, NoFile, None)
    ensures forall u :: u != meta.username ==> (u in r <==> u in users)
    ensures forall u :: u in users && u != meta.username ==> r[u] == users[u]
  {
    var dir := if meta.username in users then users[meta.username] else UserDir(None, NoFile, NoFile, None);
    users[meta.username := dir.(meta := Some(meta))]
  }

  /** `SaveUserMeta` after `WriteLog` has made sure the directory exists. */
  method SaveUserMeta(disk: DataDir, user: UserData)
    modifies disk
    ensures disk.users == MetaWritten(old(disk.users), Meta(user.username, user.password, user.orders))
  {
    disk.users := MetaWritten(disk.users, Meta(user.username, user.password, user.orders));
  }

  /** `AddOrder`: the title line, the time it is read, and the service
      entries. An order is added unless the title is blank; then
      `user.json` is rewritten with the new list, in a new directory when
      the user's is missing (logging the order creates it first). */
  method AddOrder(disk: DataDir, user: UserData, titleLine: Option<string>, now: int, entries: seq<ServiceEntry>)
    returns (added: bool)
    modifies user, disk
    ensures added <==> ReadName(titleLine) != []
    ensures user.username == old(user.username) && user.password == old(user.password)
    ensures !added ==> user.orders == old(user.orders) && disk.users == old(disk.users)
    ensures added ==> user.orders == old(user.orders) + [Order(Some(ReadName(titleLine)), now, NewServices(entries))]
    ensures added ==> disk.users == MetaWritten(old(disk.users), Meta(user.username, user.password, user.orders))
  {
    var title := ReadName(titleLine);
    if title == [] {
      return false;
    }
    var services := ReadServiceEntries(entries);
    user.orders := user.orders + [Order(Some(title), now, services)];
    SaveUserMeta(disk, user);
    added := true;
  }

  /** With no orders file beside it, the `user.json` that `AddOrder`
      writes is what the next login with the same name and password
      loads, orders included. */
  lemma AddedOrdersSurviveLogin(conv: PriceConversion, users: map<string, UserDir>, name: string,
                                password: string, orders: seq<Order>)
    requires name in users ==> users[name].json.NoFile? && users[name].xml.NoFile? && users[name].binary.None?
    ensures var meta := Meta(name, password, orders);
            LoginDecision(conv, MetaWritten(users, meta), name, password) == LoggedIn(meta)
  {
    var meta := Meta(name, password, orders);
    var dir := MetaWritten(users, meta)[name];
    assert dir.json.NoFile? && dir.xml.NoFile? && dir.binary.None?;
  }

  /** Adding an order raises the sum of all orders by that order's total,
      which is never negative. */
  lemma AddOrderTotal(orders: seq<Order>, title: string, now: int, entries: seq<ServiceEntry>)
    ensures var o := Order(Some(title), now, NewServices(entries));
            SumTotals(orders + [o]) == SumTotals(orders) + Total(o) && Total(o) >= 0.0
  {
    var o := Order(Some(title), now, NewServices(entries));
    assert (orders + [o])[..|orders|] == orders;
    NewServicesValid(entries);
    TotalNonNegative(o.services);
  }

  /** `ShowTotal`: adds up the totals of the user's orders. */
  method ShowTotal(user: UserData) returns (total: real)
    ensures total == SumTotals(user.orders)
  {
    total := 0.0;
    var i := 0;
    while i < |user.orders|
      invariant 0 <= i <= |user.orders|
      invariant total == SumTotals(user.orders[..i])
    {
      var t := ComputeTotal(user.orders[i]);
      assert user.orders[..i + 1][..i] == user.orders[..i];
      total := total + t;
      i := i + 1;
    }
    assert user.orders[..i] == user.orders;
  }
}
