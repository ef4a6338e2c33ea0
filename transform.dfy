// transform.py: the PII sanitiser, the subscription flattener and the view-name
// rule of create_monitoring_views.

module Transform {
  import opened Results
  import opened Text
  import opened Json
  import opened Database

  /** Direct identifiers, dropped outright. */
  const RemovedFields: set<string> := {"firstName", "lastName", "address"}
  /** Keys the sanitiser writes. */
  const RewrittenFields: set<string> := {"city", "zipcode", "profile", "email"}

  const CityTable := "sensitive_city_ids"
  const ZipcodeTable := "sensitive_zipcode_ids"
  const ProfessionTable := "sensitive_profession_ids"

  /** `'@' in v`: a substring test on strings, a key test on dicts, an element test on lists. */
  function ContainsAt(v: Value): Result<bool>
  {
    match v
    case Str(s) => Ok('@' in s)
    case Obj(fields) => Ok(HasKey(fields, "@"))
    case Arr(items) => Ok(Str("@") in items)
    case _ => Err("TypeError: argument is not iterable")
  }

  /** The email rule: the domain of an address containing '@', else None. */
  function EmailOf(email: Value): Result<Value>
  {
    if !Truthy(email) then Ok(Null)
    else match ContainsAt(email)
      case Err(m) => Err(m)
      case Ok(has) =>
        if !has then Ok(Null)
        else if email.Str? then Ok(Str(SecondField(email.s, '@')))
        else Err("AttributeError: object has no attribute 'split'")
  }

  /** What a successful sanitisation leaves under `email`. */
  function ExpectedEmail(email: Value): Value
  {
    if email.Str? && '@' in email.s then Str(SecondField(email.s, '@')) else Null
  }

  /** The email rule yields the text between the first and second '@' of a string
      address, and None for a falsy value or one without '@'. */
  lemma EmailRule(email: Value)
    ensures EmailOf(email).Ok? ==> EmailOf(email).value == ExpectedEmail(email)
    ensures !Truthy(email) ==> EmailOf(email) == Ok(Null)
    ensures email.Str? ==> EmailOf(email) == Ok(ExpectedEmail(email))
  {
  }

  /** One `get_or_create_mask_id` call as root: its value (the id) and the tables after it. */
  datatype Masked = Masked(res: Result<Value>, db: Tables)

  function Mask(db: Tables, table: string, column: string, raw: Value): (m: Masked)
    requires DbValid(db)
    ensures DbValid(m.db) && Extends(db, m.db)
  {
    var (outcome, db1) := GetOrCreate(db, "root", table, [(column, raw)]);
    Masked(if outcome.MaskFailed? then Err(outcome.msg)
           else Ok(if outcome.Assigned? then outcome.id else Null), db1)
  }

  /** The mask id the table holds for `raw`: the id of the first row holding it. */
  function MaskIdOf(db: Tables, table: string, column: string, raw: Value): Value
  {
    if table !in db then Null
    else
      var rows := db[table].rows;
      var i := FirstMatch(rows, [(column, raw)]);
      if i < |rows| && IdColumn in rows[i] then rows[i][IdColumn] else Null
  }

  predicate HasMaskId(db: Tables, table: string, column: string, raw: Value)
  {
    table in db && FirstMatch(db[table].rows, [(column, raw)]) < |db[table].rows|
  }

  lemma MaskIdOfStable(db: Tables, later: Tables, table: string, column: string, raw: Value)
    requires Extends(db, later) && HasMaskId(db, table, column, raw)
    ensures HasMaskId(later, table, column, raw)
    ensures MaskIdOf(later, table, column, raw) == MaskIdOf(db, table, column, raw)
  {
    FirstMatchStable(db[table].rows, later[table].rows, [(column, raw)]);
  }

  lemma MaskGivesMaskId(db: Tables, table: string, column: string, raw: Value)
    requires DbValid(db) && Mask(db, table, column, raw).res.Ok?
    ensures var m := Mask(db, table, column, raw);
      HasMaskId(m.db, table, column, raw) && m.res.value == MaskIdOf(m.db, table, column, raw)
  {
  }

  /** A mask lookup performed only when `cond` holds (the source's `if city:`). */
  function MaskIf(db: Tables, cond: bool, table: string, column: string, raw: Value): (m: Masked)
    requires DbValid(db)
    ensures DbValid(m.db) && Extends(db, m.db)
    ensures !cond ==> m == Masked(Ok(raw), db)
  {
    if cond then Mask(db, table, column, raw) else Masked(Ok(raw), db)
  }

  /** The ids the three lookups produced: `None` where the raw value was falsy and no lookup ran. */
  datatype Ids = Ids(city: Option<Value>, zipcode: Option<Value>, profession: Option<Value>)

  datatype Masks = Masks(res: Result<Ids>, db: Tables)

  /** The three lookups of one user, in the source's order; the first exception ends them. */
  function MaskAll(db: Tables, city: Value, zipcode: Value, profession: Value): (m: Masks)
    requires DbValid(db)
    ensures DbValid(m.db) && Extends(db, m.db)
  {
    var c := MaskIf(db, Truthy(city), CityTable, "city", city);
    if c.res.Err? then Masks(Err(c.res.msg), c.db)
    else
      var z := MaskIf(c.db, Truthy(zipcode), ZipcodeTable, "zipcode", zipcode);
      ExtendsTrans(db, c.db, z.db);
      if z.res.Err? then Masks(Err(z.res.msg), z.db)
      else
        var p := MaskIf(z.db, Truthy(profession), ProfessionTable, "profession", profession);
        ExtendsTrans(db, z.db, p.db);
        if p.res.Err? then Masks(Err(p.res.msg), p.db)
        else
          Masks(Ok(Ids(if Truthy(city) then Some(c.res.value) else None,
                       if Truthy(zipcode) then Some(z.res.value) else None,
                       if Truthy(profession) then Some(p.res.value) else None)), p.db)
  }

  /** One user through the sanitiser: the sanitised record (or the exception), the
      caller's record afterwards (its `profile` dict is shared) and the tables. */
  datatype UserStep = UserStep(res: Result<Record>, caller: Record, db: Tables)

  /** The body of the loop in `sanitize_sensitive_data_users`. */
  function SanitizeUser(db: Tables, user: Record): (s: UserStep)
    requires DbValid(db)
    ensures DbValid(s.db) && Extends(db, s.db)
  {
    var u := Without(user, RemovedFields);
    match GetDict(u, "profile")
    case Err(m) => UserStep(Err(m), user, db)
    case Ok(profile) =>
      var m := MaskAll(db, Get(u, "city"), Get(u, "zipCode"), Get(profile, "profession"));
      if m.res.Err? then UserStep(Err(m.res.msg), user, m.db)
      else
        var ids := m.res.value;
        var newProfile := if ids.profession.Some? then Some(Set(profile, "profession", ids.profession.value)) else None;
        var caller := if newProfile.Some? then Set(user, "profile", Obj(newProfile.value)) else user;
        match EmailOf(Get(u, "email"))
        case Err(msg) => UserStep(Err(msg), caller, m.db)
        case Ok(e) => UserStep(Ok(Rebuilt(user, ids.city, ids.zipcode, newProfile, e)), caller, m.db)
  }

  /** The sanitised record: identifiers dropped, then the masked values and the
      email domain assigned in the order the source assigns them. */
  function Rebuilt(user: Record, city: Option<Value>, zipcode: Option<Value>, profile: Option<Record>, email: Value): Record
  {
    var u1 := SetIf(Without(user, RemovedFields), "city", city);
    var u2 := SetIf(u1, "zipcode", zipcode);
    var u3 := SetIf(u2, "profile", if profile.Some? then Some(Obj(profile.value)) else None);
    Set(u3, "email", email)
  }

  /** The sanitiser over a list, processed in order; it stops at the first exception. */
  datatype Run = Run(res: Result<seq<Record>>, callers: seq<Record>, db: Tables)

  function SanitizeAll(db: Tables, users: seq<Record>): (run: Run)
    requires DbValid(db)
    ensures DbValid(run.db) && Extends(db, run.db)
    ensures |run.callers| == |users|
    ensures run.res.Ok? ==> |run.res.value| == |users|
    decreases |users|
  {
    if users == [] then Run(Ok([]), [], db)
    else
      var prev := SanitizeAll(db, users[..|users| - 1]);
      var user := users[|users| - 1];
      if prev.res.Err? then Run(prev.res, prev.callers + [user], prev.db)
      else
        var step := SanitizeUser(prev.db, user);
        ExtendsTrans(db, prev.db, step.db);
        Run(if step.res.Err? then Err(step.res.msg) else Ok(prev.res.value + [step.res.value]),
            prev.callers + [step.caller], step.db)
  }

  /** One lookup on the connector, when `cond` holds. */
  method MaskOne(db: MySqlDb, cond: bool, table: string, column: string, raw: Value) returns (res: Result<Value>)
    requires db.Valid()
    modifies db
    ensures db.Valid() && db.views == old(db.views)
    ensures Masked(res, db.tables) == MaskIf(old(db.tables), cond, table, column, raw)
  {
    res := Ok(raw);
    if cond {
      var id := db.GetOrCreateMaskId("root", table, [(column, raw)]);
      if id.MaskFailed? {
        return Err(id.msg);
      }
      res := Ok(if id.Assigned? then id.id else Null);
    }
  }

  /** The loop body, performed on the connector. */
  method SanitizeOne(db: MySqlDb, user: Record) returns (res: Result<Record>, caller: Record)
    requires db.Valid()
    modifies db
    ensures db.Valid() && db.views == old(db.views)
    ensures UserStep(res, caller, db.tables) == SanitizeUser(old(db.tables), user)
  {
    var u := Without(user, RemovedFields);
    var city, zipcode, email := Get(u, "city"), Get(u, "zipCode"), Get(u, "email");
    caller := user;
    var profileOf := GetDict(u, "profile");
    if profileOf.Err? {
      return Err(profileOf.msg), caller;
    }
    var profile := profileOf.value;
    var profession := Get(profile, "profession");
    ghost var ids := Ids(None, None, None);
    var cityId := MaskOne(db, Truthy(city), CityTable, "city", city);
    if cityId.Err? {
      return Err(cityId.msg), caller;
    }
    if Truthy(city) {
      u := Set(u, "city", cityId.value);
      ids := ids.(city := Some(cityId.value));
    }
    var zipcodeId := MaskOne(db, Truthy(zipcode), ZipcodeTable, "zipcode", zipcode);
    if zipcodeId.Err? {
      return Err(zipcodeId.msg), caller;
    }
    if Truthy(zipcode) {
      u := Set(u, "zipcode", zipcodeId.value);
      ids := ids.(zipcode := Some(zipcodeId.value));
    }
    var professionId := MaskOne(db, Truthy(profession), ProfessionTable, "profession", profession);
    if professionId.Err? {
      return Err(professionId.msg), caller;
    }
    ghost var newProfile: Option<Record> := None;
    if Truthy(profession) {
      var p := Set(profile, "profession", professionId.value);
      u := Set(u, "profile", Obj(p));
      caller := Set(user, "profile", Obj(p));
      ids := ids.(profession := Some(professionId.value));
      newProfile := Some(p);
    }
    assert u == SetIf(SetIf(SetIf(Without(user, RemovedFields), "city", ids.city), "zipcode", ids.zipcode),
                      "profile", if newProfile.Some? then Some(Obj(newProfile.value)) else None);
    var e := EmailOf(email);
    if e.Err? {
      return Err(e.msg), caller;
    }
    res := Ok(Set(u, "email", e.value));
    assert res.value == Rebuilt(user, ids.city, ids.zipcode, newProfile, e.value);
  }

  /** Once an exception has been raised, a further user only joins the callers' list. */
  lemma SanitizeAllErrStep(db: Tables, users: seq<Record>, user: Record)
    requires DbValid(db) && SanitizeAll(db, users).res.Err?
    ensures var prev := SanitizeAll(db, users);
      SanitizeAll(db, users + [user]) == Run(prev.res, prev.callers + [user], prev.db)
  {
    assert (users + [user])[..|users|] == users;
  }

  /** After an exception, the rest of the list is left as it was. */
  lemma {:induction false} SanitizeAllStopped(db: Tables, users: seq<Record>, i: nat)
    requires DbValid(db) && i <= |users| && SanitizeAll(db, users[..i]).res.Err?
    ensures SanitizeAll(db, users) ==
      var prev := SanitizeAll(db, users[..i]);
      Run(prev.res, prev.callers + users[i..], prev.db)
    decreases |users| - i
  {
    if i < |users| {
      var prev := SanitizeAll(db, users[..i]);
      assert users[..i + 1] == users[..i] + [users[i]];
      SanitizeAllErrStep(db, users[..i], users[i]);
      var next := SanitizeAll(db, users[..i + 1]);
      assert next == Run(prev.res, prev.callers + [users[i]], prev.db);
      SanitizeAllStopped(db, users, i + 1);
      assert users[i..] == [users[i]] + users[i + 1..];
      assert next.callers + users[i + 1..] == prev.callers + users[i..];
    } else {
      assert users[..i] == users;
    }
  }

  /** `sanitize_sensitive_data_users`: one sanitised record per user, in order. */
  method SanitizeSensitiveDataUsers(db: MySqlDb, users: seq<Record>)
    returns (res: Result<seq<Record>>, callers: seq<Record>)
    requires db.Valid()
    modifies db
    ensures db.Valid() && db.views == old(db.views)
    ensures Run(res, callers, db.tables) == SanitizeAll(old(db.tables), users)
  {
    var sanitized: seq<Record> := [];
    callers := [];
    var i := 0;
    while i < |users|
      invariant 0 <= i <= |users| && db.Valid() && db.views == old(db.views)
      invariant Run(Ok(sanitized), callers, db.tables) == SanitizeAll(old(db.tables), users[..i])
    {
      assert users[..i + 1][..i] == users[..i];
      var one, caller := SanitizeOne(db, users[i]);
      callers := callers + [caller];
      if one.Err? {
        SanitizeAllStopped(old(db.tables), users, i + 1);
        callers := callers + users[i + 1..];
        return Err(one.msg), callers;
      }
      sanitized := sanitized + [one.value];
      i := i + 1;
    }
    assert users[..i] == users;
    res := Ok(sanitized);
  }
}

module TransformProofs {
  import opened Results
  import opened Json
  import opened Database
  import opened Transform
  import Sql

  /** `user['profile']['profession']`, or None when there is no profile dict. */
  function ProfessionOf(user: Record): Value
  {
    match Get(user, "profile")
    case Obj(fields) => Get(fields, "profession")
    case _ => Null
  }

  /** What the sanitiser promises of one output record, whatever the tables hold. */
  ghost predicate SanitizedFrom(user: Record, out: Record)
  {
    (forall f :: f in RemovedFields ==> !HasKey(out, f)) &&
    (forall k :: k !in RemovedFields && HasKey(user, k) ==> HasKey(out, k)) &&
    (forall k :: k !in RemovedFields && k !in RewrittenFields ==> Get(out, k) == Get(user, k)) &&
    (!Truthy(Get(user, "city")) ==> Get(out, "city") == Get(user, "city")) &&
    (!Truthy(Get(user, "zipCode")) ==> Get(out, "zipcode") == Get(user, "zipcode")) &&
    (!Truthy(ProfessionOf(user)) ==> Get(out, "profile") == Get(user, "profile")) &&
    Get(out, "email") == ExpectedEmail(Get(user, "email"))
  }

  /** The masked fields of `out` hold the ids the mask tables of `db` keep for the raw values. */
  ghost predicate MaskedIn(db: Tables, user: Record, out: Record)
  {
    var city, zipcode, profession := Get(user, "city"), Get(user, "zipCode"), ProfessionOf(user);
    (Truthy(city) ==>
       HasMaskId(db, CityTable, "city", city) &&
       Get(out, "city") == MaskIdOf(db, CityTable, "city", city)) &&
    (Truthy(zipcode) ==>
       HasMaskId(db, ZipcodeTable, "zipcode", zipcode) &&
       Get(out, "zipcode") == MaskIdOf(db, ZipcodeTable, "zipcode", zipcode)) &&
    (Truthy(profession) ==>
       HasMaskId(db, ProfessionTable, "profession", profession) &&
       Get(user, "profile").Obj? &&
       Get(out, "profile") ==
         Obj(Set(Get(user, "profile").fields, "profession", MaskIdOf(db, ProfessionTable, "profession", profession))))
  }

  /** The caller's record after the call: only a masked profession reaches it, through the shared dict. */
  function CallerAfter(user: Record, out: Record): Record
  {
    if Truthy(ProfessionOf(user)) then Set(user, "profile", Get(out, "profile")) else user
  }

  /** Everything one successful step promises: the record's promises, its ids in `db`, the caller's record. */
  ghost predicate Promised(db: Tables, user: Record, out: Record, caller: Record)
  {
    SanitizedFrom(user, out) && MaskedIn(db, user, out) && caller == CallerAfter(user, out)
  }

  lemma MaskedInStable(db: Tables, later: Tables, user: Record, out: Record)
    requires Extends(db, later) && MaskedIn(db, user, out)
    ensures MaskedIn(later, user, out)
  {
    var city, zipcode, profession := Get(user, "city"), Get(user, "zipCode"), ProfessionOf(user);
    if Truthy(city) { MaskIdOfStable(db, later, CityTable, "city", city); }
    if Truthy(zipcode) { MaskIdOfStable(db, later, ZipcodeTable, "zipcode", zipcode); }
    if Truthy(profession) { MaskIdOfStable(db, later, ProfessionTable, "profession", profession); }
  }

  lemma PromisedStable(db: Tables, later: Tables, user: Record, out: Record, caller: Record)
    requires Extends(db, later) && Promised(db, user, out, caller)
    ensures Promised(later, user, out, caller)
  {
    MaskedInStable(db, later, user, out);
  }

  lemma MaskIfResult(db: Tables, cond: bool, table: string, column: string, raw: Value)
    requires DbValid(db) && MaskIf(db, cond, table, column, raw).res.Ok?
    ensures var m := MaskIf(db, cond, table, column, raw);
      cond ==> HasMaskId(m.db, table, column, raw) && m.res.value == MaskIdOf(m.db, table, column, raw)
  {
    if cond { MaskGivesMaskId(db, table, column, raw); }
  }

  /** The four assignments of the sanitiser, key by key, on the record left after the drop. */
  lemma AssignedAt(u: Record, city: Option<Value>, zipcode: Option<Value>, profile: Option<Value>, email: Value, k: string)
    ensures var out := Set(SetIf(SetIf(SetIf(u, "city", city), "zipcode", zipcode), "profile", profile), "email", email);
      Get(out, k) ==
        (if k == "email" then email
         else if k == "profile" && profile.Some? then profile.value
         else if k == "zipcode" && zipcode.Some? then zipcode.value
         else if k == "city" && city.Some? then city.value
         else Get(u, k)) &&
      (HasKey(out, k) <==>
         HasKey(u, k) || k == "email" || (k == "profile" && profile.Some?) ||
         (k == "zipcode" && zipcode.Some?) || (k == "city" && city.Some?))
  {
    var u1 := SetIf(u, "city", city);
    var u2 := SetIf(u1, "zipcode", zipcode);
    var u3 := SetIf(u2, "profile", profile);
    if city.Some? { HasKeySet(u, "city", city.value, k); if k == "city" { GetSet(u, "city", city.value); } else { GetSetOther(u, "city", city.value, k); } }
    if zipcode.Some? { HasKeySet(u1, "zipcode", zipcode.value, k); if k == "zipcode" { GetSet(u1, "zipcode", zipcode.value); } else { GetSetOther(u1, "zipcode", zipcode.value, k); } }
    if profile.Some? { HasKeySet(u2, "profile", profile.value, k); if k == "profile" { GetSet(u2, "profile", profile.value); } else { GetSetOther(u2, "profile", profile.value, k); } }
    HasKeySet(u3, "email", email, k);
    if k == "email" { GetSet(u3, "email", email); } else { GetSetOther(u3, "email", email, k); }
  }

  /** The identifiers are gone from the sanitised record. */
  lemma RebuiltDropped(user: Record, city: Option<Value>, zipcode: Option<Value>, profile: Option<Record>, email: Value, k: string)
    requires k in RemovedFields
    ensures !HasKey(Rebuilt(user, city, zipcode, profile, email), k)
  {
    var u := Without(user, RemovedFields);
    var p := if profile.Some? then Some(Obj(profile.value)) else None;
    assert k == "firstName" || k == "lastName" || k == "address";
    assert k != "email" && k != "profile" && k != "zipcode" && k != "city";
    GetWithout(user, RemovedFields, k);
    AssignedAt(u, city, zipcode, p, email, k);
  }

  /** Every other key survives, and keys the sanitiser does not write keep their values. */
  lemma RebuiltKept(user: Record, city: Option<Value>, zipcode: Option<Value>, profile: Option<Record>, email: Value, k: string)
    requires k !in RemovedFields
    ensures var out := Rebuilt(user, city, zipcode, profile, email);
      (HasKey(user, k) ==> HasKey(out, k)) &&
      (k !in RewrittenFields ==> Get(out, k) == Get(user, k))
  {
    var u := Without(user, RemovedFields);
    GetWithout(user, RemovedFields, k);
    AssignedAt(u, city, zipcode, if profile.Some? then Some(Obj(profile.value)) else None, email, k);
  }

  /** The values the sanitiser writes. */
  lemma RebuiltAssigned(user: Record, city: Option<Value>, zipcode: Option<Value>, profile: Option<Record>, email: Value)
    ensures var out := Rebuilt(user, city, zipcode, profile, email);
      Get(out, "city") == (if city.Some? then city.value else Get(user, "city")) &&
      Get(out, "zipcode") == (if zipcode.Some? then zipcode.value else Get(user, "zipcode")) &&
      Get(out, "profile") == (if profile.Some? then Obj(profile.value) else Get(user, "profile")) &&
      Get(out, "email") == email
  {
    var u := Without(user, RemovedFields);
    var p := if profile.Some? then Some(Obj(profile.value)) else None;
    assert "city" !in RemovedFields && "zipcode" !in RemovedFields && "profile" !in RemovedFields;
    GetWithout(user, RemovedFields, "city");
    GetWithout(user, RemovedFields, "zipcode");
    GetWithout(user, RemovedFields, "profile");
    AssignedAt(u, city, zipcode, p, email, "city");
    AssignedAt(u, city, zipcode, p, email, "zipcode");
    AssignedAt(u, city, zipcode, p, email, "profile");
    AssignedAt(u, city, zipcode, p, email, "email");
  }

  /** Whatever ids were assigned, the rebuilt record keeps the sanitiser's key-level promises. */
  lemma RebuiltSanitized(user: Record, city: Option<Value>, zipcode: Option<Value>, profile: Option<Record>, email: Value)
    requires !Truthy(Get(user, "city")) ==> city.None?
    requires !Truthy(Get(user, "zipCode")) ==> zipcode.None?
    requires !Truthy(ProfessionOf(user)) ==> profile.None?
    requires email == ExpectedEmail(Get(user, "email"))
    ensures SanitizedFrom(user, Rebuilt(user, city, zipcode, profile, email))
  {
    var out := Rebuilt(user, city, zipcode, profile, email);
    forall k
      ensures k in RemovedFields ==> !HasKey(out, k)
      ensures k !in RemovedFields && HasKey(user, k) ==> HasKey(out, k)
      ensures k !in RemovedFields && k !in RewrittenFields ==> Get(out, k) == Get(user, k)
    {
      if k in RemovedFields {
        RebuiltDropped(user, city, zipcode, profile, email, k);
      } else {
        RebuiltKept(user, city, zipcode, profile, email, k);
      }
    }
    RebuiltAssigned(user, city, zipcode, profile, email);
  }

  /** A lookup ran, and an id was recorded, exactly for each truthy raw value. */
  lemma MaskAllSome(db: Tables, city: Value, zipcode: Value, profession: Value)
    requires DbValid(db) && MaskAll(db, city, zipcode, profession).res.Ok?
    ensures var ids := MaskAll(db, city, zipcode, profession).res.value;
      (ids.city.Some? <==> Truthy(city)) &&
      (ids.zipcode.Some? <==> Truthy(zipcode)) &&
      (ids.profession.Some? <==> Truthy(profession))
  {
  }

  /** After the three lookups, each masked field holds the id its table keeps for the raw value. */
  lemma MaskAllSpec(db: Tables, city: Value, zipcode: Value, profession: Value)
    requires DbValid(db) && MaskAll(db, city, zipcode, profession).res.Ok?
    ensures var m := MaskAll(db, city, zipcode, profession);
      var ids := m.res.value;
      (ids.city.Some? <==> Truthy(city)) &&
      (ids.zipcode.Some? <==> Truthy(zipcode)) &&
      (ids.profession.Some? <==> Truthy(profession)) &&
      (Truthy(city) ==>
         HasMaskId(m.db, CityTable, "city", city) && ids.city.value == MaskIdOf(m.db, CityTable, "city", city)) &&
      (Truthy(zipcode) ==>
         HasMaskId(m.db, ZipcodeTable, "zipcode", zipcode) &&
         ids.zipcode.value == MaskIdOf(m.db, ZipcodeTable, "zipcode", zipcode)) &&
      (Truthy(profession) ==>
         HasMaskId(m.db, ProfessionTable, "profession", profession) &&
         ids.profession.value == MaskIdOf(m.db, ProfessionTable, "profession", profession))
  {
    var c := MaskIf(db, Truthy(city), CityTable, "city", city);
    var z := MaskIf(c.db, Truthy(zipcode), ZipcodeTable, "zipcode", zipcode);
    var p := MaskIf(z.db, Truthy(profession), ProfessionTable, "profession", profession);
    MaskIfResult(db, Truthy(city), CityTable, "city", city);
    MaskIfResult(c.db, Truthy(zipcode), ZipcodeTable, "zipcode", zipcode);
    MaskIfResult(z.db, Truthy(profession), ProfessionTable, "profession", profession);
    if Truthy(city) {
      MaskIdOfStable(c.db, z.db, CityTable, "city", city);
      MaskIdOfStable(z.db, p.db, CityTable, "city", city);
    }
    if Truthy(zipcode) {
      MaskIdOfStable(z.db, p.db, ZipcodeTable, "zipcode", zipcode);
    }
  }

  /** One user: the sanitised record keeps its promises and holds the ids of the tables after the call. */
  lemma SanitizeUserSpec(db: Tables, user: Record)
    requires DbValid(db) && SanitizeUser(db, user).res.Ok?
    ensures var s := SanitizeUser(db, user);
      Promised(s.db, user, s.res.value, s.caller)
  {
    SanitizeUserSanitized(db, user);
    SanitizeUserMasked(db, user);
  }

  /** The lookups run on the user's own city, zipCode and profile profession. */
  lemma DroppedKeeps(user: Record)
    ensures var u := Without(user, RemovedFields);
      Get(u, "city") == Get(user, "city") && Get(u, "zipCode") == Get(user, "zipCode") &&
      Get(u, "email") == Get(user, "email") && Get(u, "profile") == Get(user, "profile") &&
      (GetDict(u, "profile").Ok? ==> Get(GetDict(u, "profile").value, "profession") == ProfessionOf(user)) &&
      (GetDict(u, "profile").Ok? && Truthy(ProfessionOf(user)) ==>
         Get(user, "profile").Obj? && GetDict(u, "profile").value == Get(user, "profile").fields)
  {
    assert "city" !in RemovedFields && "zipCode" !in RemovedFields && "email" !in RemovedFields && "profile" !in RemovedFields;
    GetWithout(user, RemovedFields, "city");
    GetWithout(user, RemovedFields, "zipCode");
    GetWithout(user, RemovedFields, "email");
    GetWithout(user, RemovedFields, "profile");
    var u := Without(user, RemovedFields);
    if !HasKey(u, "profile") {
      assert Get(u, "profile") == Null && Get([], "profession") == Null;
    }
  }

  /** A successful step, spelled out: the record rebuilt from the ids of the three lookups. */
  lemma SanitizeUserIs(db: Tables, user: Record)
    requires DbValid(db) && SanitizeUser(db, user).res.Ok?
    ensures var u := Without(user, RemovedFields);
      GetDict(u, "profile").Ok? &&
      var profile := GetDict(u, "profile").value;
      var m := MaskAll(db, Get(u, "city"), Get(u, "zipCode"), Get(profile, "profession"));
      m.res.Ok? && EmailOf(Get(u, "email")).Ok? &&
      var ids := m.res.value;
      var newProfile := if ids.profession.Some? then Some(Set(profile, "profession", ids.profession.value)) else None;
      SanitizeUser(db, user) ==
        UserStep(Ok(Rebuilt(user, ids.city, ids.zipcode, newProfile, EmailOf(Get(u, "email")).value)),
                 if newProfile.Some? then Set(user, "profile", Obj(newProfile.value)) else user, m.db)
  {
  }

  lemma SanitizeUserSanitized(db: Tables, user: Record)
    requires DbValid(db) && SanitizeUser(db, user).res.Ok?
    ensures SanitizedFrom(user, SanitizeUser(db, user).res.value)
  {
    SanitizeUserIs(db, user);
    DroppedKeeps(user);
    var u := Without(user, RemovedFields);
    var city, zipcode, email := Get(user, "city"), Get(user, "zipCode"), Get(user, "email");
    var profile := GetDict(u, "profile").value;
    var profession := ProfessionOf(user);
    var m := MaskAll(db, city, zipcode, profession);
    var ids := m.res.value;
    var newProfile := if ids.profession.Some? then Some(Set(profile, "profession", ids.profession.value)) else None;
    var e := EmailOf(email).value;
    MaskAllSome(db, city, zipcode, profession);
    EmailRule(email);
    RebuiltSanitized(user, ids.city, ids.zipcode, newProfile, e);
  }

  lemma SanitizeUserMasked(db: Tables, user: Record)
    requires DbValid(db) && SanitizeUser(db, user).res.Ok?
    ensures var s := SanitizeUser(db, user);
      MaskedIn(s.db, user, s.res.value) && s.caller == CallerAfter(user, s.res.value)
  {
    SanitizeUserIs(db, user);
    DroppedKeeps(user);
    var u := Without(user, RemovedFields);
    var city, zipcode, email := Get(user, "city"), Get(user, "zipCode"), Get(user, "email");
    var profile := GetDict(u, "profile").value;
    var profession := ProfessionOf(user);
    var m := MaskAll(db, city, zipcode, profession);
    var ids := m.res.value;
    var newProfile := if ids.profession.Some? then Some(Set(profile, "profession", ids.profession.value)) else None;
    var e := EmailOf(email).value;
    MaskAllSpec(db, city, zipcode, profession);
    RebuiltAssigned(user, ids.city, ids.zipcode, newProfile, e);
  }

  /** A further user after a successful prefix: its step is appended. */
  lemma SanitizeAllOkStep(db: Tables, users: seq<Record>, user: Record)
    requires DbValid(db) && SanitizeAll(db, users).res.Ok?
    ensures var prev := SanitizeAll(db, users);
      var step := SanitizeUser(prev.db, user);
      SanitizeAll(db, users + [user]) ==
        Run(if step.res.Err? then Err(step.res.msg) else Ok(prev.res.value + [step.res.value]),
            prev.callers + [step.caller], step.db)
  {
    assert (users + [user])[..|users|] == users;
  }

  /** The record at position `k` of a successful run keeps its promises against the tables as they end up. */
  lemma {:induction false} SanitizeAllAt(db: Tables, users: seq<Record>, k: nat)
    requires DbValid(db) && SanitizeAll(db, users).res.Ok? && k < |users|
    ensures var run := SanitizeAll(db, users);
      Promised(run.db, users[k], run.res.value[k], run.callers[k])
    decreases |users|, 1
  {
    if k == |users| - 1 {
      SanitizeAllLast(db, users);
    } else {
      SanitizeAllEarlier(db, users, k);
    }
  }

  lemma SanitizeAllLast(db: Tables, users: seq<Record>)
    requires DbValid(db) && SanitizeAll(db, users).res.Ok? && 0 < |users|
    ensures var run := SanitizeAll(db, users);
      Promised(run.db, users[|users| - 1], run.res.value[|users| - 1], run.callers[|users| - 1])
  {
    var n := |users| - 1;
    var init := users[..n];
    assert users == init + [users[n]];
    var prev := SanitizeAll(db, init);
    SanitizeAllOkStep(db, init, users[n]);
    var step := SanitizeUser(prev.db, users[n]);
    var run := SanitizeAll(db, users);
    assert run.res == Ok(prev.res.value + [step.res.value]);
    assert run.res.value[n] == step.res.value && run.callers[n] == step.caller && run.db == step.db;
    SanitizeUserSpec(prev.db, users[n]);
  }

  lemma {:induction false} SanitizeAllEarlier(db: Tables, users: seq<Record>, k: nat)
    requires DbValid(db) && SanitizeAll(db, users).res.Ok? && k < |users| - 1
    ensures var run := SanitizeAll(db, users);
      Promised(run.db, users[k], run.res.value[k], run.callers[k])
    decreases |users|, 0
  {
    var n := |users| - 1;
    var init := users[..n];
    assert users == init + [users[n]];
    var prev := SanitizeAll(db, init);
    SanitizeAllOkStep(db, init, users[n]);
    var step := SanitizeUser(prev.db, users[n]);
    var run := SanitizeAll(db, users);
    SanitizeAllAt(db, init, k);
    assert init[k] == users[k] && run.res.value[k] == prev.res.value[k] && run.callers[k] == prev.callers[k];
    PromisedStable(prev.db, step.db, users[k], prev.res.value[k], prev.callers[k]);
  }

  /** Every record of a successful run keeps its promises against the tables as they end up. */
  lemma SanitizeAllSpec(db: Tables, users: seq<Record>)
    requires DbValid(db) && SanitizeAll(db, users).res.Ok?
    ensures var run := SanitizeAll(db, users);
      forall k :: 0 <= k < |users| ==>
        SanitizedFrom(users[k], run.res.value[k]) && MaskedIn(run.db, users[k], run.res.value[k]) &&
        run.callers[k] == CallerAfter(users[k], run.res.value[k])
  {
    forall k | 0 <= k < |users|
      ensures var run := SanitizeAll(db, users);
        SanitizedFrom(users[k], run.res.value[k]) && MaskedIn(run.db, users[k], run.res.value[k]) &&
        run.callers[k] == CallerAfter(users[k], run.res.value[k])
    {
      SanitizeAllAt(db, users, k);
    }
  }

  /** A table a lookup on `column` can go through: AUTO_INCREMENT, with that column, which is neither the id nor the timestamp. */
  predicate MaskReady(db: Tables, table: string, column: string)
  {
    table in db && db[table].autoId && column in db[table].columns &&
    column != IdColumn && column != UpdatedAtColumn
  }

  /** The three `sensitive_*` tables are ready for their lookups. */
  predicate MaskTablesReady(db: Tables)
  {
    MaskReady(db, CityTable, "city") && MaskReady(db, ZipcodeTable, "zipcode") &&
    MaskReady(db, ProfessionTable, "profession")
  }

  /** The tables `initialise_db_and_create_tables` creates are ready. */
  lemma SchemaMaskReady()
    ensures MaskTablesReady(Schema())
  {
    var db := Schema();
    assert db[CityTable].columns == [IdColumn, "city", UpdatedAtColumn];
    assert db[ZipcodeTable].columns == [IdColumn, "zipcode", UpdatedAtColumn];
    assert db[ProfessionTable].columns == [IdColumn, "profession", UpdatedAtColumn];
  }

  /** Inserts never make a ready table unready. */
  lemma MaskTablesReadyStable(db: Tables, later: Tables)
    requires Extends(db, later) && MaskTablesReady(db)
    ensures MaskTablesReady(later)
  {
  }

  /**
   * A lookup of a `str` value without a quote or backslash in a ready table
   * succeeds: the value's existing id when it has a row, otherwise the id of
   * the one row inserted for it.
   */
  lemma MaskSucceeds(db: Tables, table: string, column: string, raw: Value)
    requires DbValid(db) && MaskReady(db, table, column) && raw.Str? && Sql.Unquoted(raw.s)
    ensures Mask(db, table, column, raw).res.Ok?
    ensures !HasMaskId(db, table, column, raw) ==>
      Mask(db, table, column, raw) == Masked(Ok(Int(db[table].nextId)), db[table := Appended(db[table], [(column, raw)])])
    ensures HasMaskId(db, table, column, raw) ==>
      Mask(db, table, column, raw) == Masked(Ok(MaskIdOf(db, table, column, raw)), db)
  {
    var r := [(column, raw)];
    assert Keys(r) == [column];
    assert ColumnsKnown(db[table], [IdColumn]);
    assert Sql.Spliced(r[0].1) == raw.s;
    assert Sql.UnquotedValues(r);
    if HasMaskId(db, table, column, raw) {
      GetOrCreateFound(db, table, r);
    } else {
      assert Sql.AllStr(r) && DistinctKeys(r);
      GetOrCreateNew(db, table, r);
    }
  }

  /** A raw value that, when it is looked up at all, is a `str` without a quote or backslash. */
  predicate Lookable(cond: bool, raw: Value)
  {
    cond ==> raw.Str? && Sql.Unquoted(raw.s)
  }

  /** The three lookups succeed when each raw value that is looked up is a `str` without a quote or backslash. */
  lemma MaskAllSucceeds(db: Tables, city: Value, zipcode: Value, profession: Value)
    requires DbValid(db) && MaskTablesReady(db)
    requires Lookable(Truthy(city), city) && Lookable(Truthy(zipcode), zipcode) && Lookable(Truthy(profession), profession)
    ensures MaskAll(db, city, zipcode, profession).res.Ok?
  {
    var c := MaskIf(db, Truthy(city), CityTable, "city", city);
    MaskIfSucceeds(db, Truthy(city), CityTable, "city", city);
    var z := MaskIf(c.db, Truthy(zipcode), ZipcodeTable, "zipcode", zipcode);
    MaskIfSucceeds(c.db, Truthy(zipcode), ZipcodeTable, "zipcode", zipcode);
    MaskIfSucceeds(z.db, Truthy(profession), ProfessionTable, "profession", profession);
    MaskAllOk(db, city, zipcode, profession);
  }

  /** `MaskAll` succeeds when each of its three lookups does. */
  lemma MaskAllOk(db: Tables, city: Value, zipcode: Value, profession: Value)
    requires DbValid(db)
    ensures var c := MaskIf(db, Truthy(city), CityTable, "city", city);
      var z := MaskIf(c.db, Truthy(zipcode), ZipcodeTable, "zipcode", zipcode);
      var p := MaskIf(z.db, Truthy(profession), ProfessionTable, "profession", profession);
      c.res.Ok? && z.res.Ok? && p.res.Ok? ==> MaskAll(db, city, zipcode, profession).res.Ok?
  {
  }

  /** One optional lookup succeeds and leaves the tables ready for the next. */
  lemma MaskIfSucceeds(db: Tables, cond: bool, table: string, column: string, raw: Value)
    requires DbValid(db) && MaskTablesReady(db) && MaskReady(db, table, column)
    requires Lookable(cond, raw)
    ensures MaskIf(db, cond, table, column, raw).res.Ok?
    ensures MaskTablesReady(MaskIf(db, cond, table, column, raw).db)
  {
    if cond { MaskSucceeds(db, table, column, raw); }
    MaskTablesReadyStable(db, MaskIf(db, cond, table, column, raw).db);
  }

  /**
   * A user the sanitiser can handle: `profile` absent or a dict, `city`,
   * `zipCode` and the profile's `profession` each falsy or a `str` without a
   * quote or backslash, and `email` falsy or a `str`.
   */
  predicate Sanitizable(user: Record)
  {
    (!HasKey(user, "profile") || Get(user, "profile").Obj?) &&
    (Truthy(Get(user, "city")) ==> Get(user, "city").Str? && Sql.Unquoted(Get(user, "city").s)) &&
    (Truthy(Get(user, "zipCode")) ==> Get(user, "zipCode").Str? && Sql.Unquoted(Get(user, "zipCode").s)) &&
    (Truthy(ProfessionOf(user)) ==> ProfessionOf(user).Str? && Sql.Unquoted(ProfessionOf(user).s)) &&
    (Truthy(Get(user, "email")) ==> Get(user, "email").Str?)
  }

  /** On ready tables, the sanitiser never raises for such a user. */
  lemma SanitizeUserSucceeds(db: Tables, user: Record)
    requires DbValid(db) && MaskTablesReady(db) && Sanitizable(user)
    ensures SanitizeUser(db, user).res.Ok?
  {
    var u := Without(user, RemovedFields);
    assert "profile" !in RemovedFields;
    GetWithout(user, RemovedFields, "profile");
    DroppedKeeps(user);
    assert GetDict(u, "profile").Ok?;
    MaskAllSucceeds(db, Get(user, "city"), Get(user, "zipCode"), ProfessionOf(user));
    EmailRule(Get(user, "email"));
  }

  /** On ready tables, a list of such users is sanitised to the end. */
  lemma {:induction false} SanitizeAllSucceeds(db: Tables, users: seq<Record>)
    requires DbValid(db) && MaskTablesReady(db)
    requires forall k :: 0 <= k < |users| ==> Sanitizable(users[k])
    ensures SanitizeAll(db, users).res.Ok?
    decreases |users|
  {
    if users != [] {
      var n := |users| - 1;
      var init := users[..n];
      assert users == init + [users[n]];
      SanitizeAllSucceeds(db, init);
      var prev := SanitizeAll(db, init);
      MaskTablesReadyStable(db, prev.db);
      SanitizeUserSucceeds(prev.db, users[n]);
      SanitizeAllOkStep(db, init, users[n]);
    }
  }

  /** In an AUTO_INCREMENT mask table, distinct raw values have distinct integer ids. */
  lemma MaskIdOfDistinct(db: Tables, table: string, column: string, v1: Value, v2: Value)
    requires DbValid(db) && table in db && db[table].autoId
    requires HasMaskId(db, table, column, v1) && HasMaskId(db, table, column, v2)
    ensures MaskIdOf(db, table, column, v1).Int?
    ensures MaskIdOf(db, table, column, v1) == MaskIdOf(db, table, column, v2) <==> v1 == v2
  {
    var rows := db[table].rows;
    var i, j := FirstMatch(rows, [(column, v1)]), FirstMatch(rows, [(column, v2)]);
    assert TableValid(db[table]);
    assert [(column, v1)][0] == (column, v1) && [(column, v2)][0] == (column, v2);
    assert rows[i][column] == v1 && rows[j][column] == v2;
    if i < j {
      assert rows[i][IdColumn] != rows[j][IdColumn];
    } else if j < i {
      assert rows[j][IdColumn] != rows[i][IdColumn];
    }
  }

  /** Two sanitised records over the same AUTO_INCREMENT city table: each masked city
      is an integer id, and two masked cities are equal exactly when the raw ones are. */
  lemma PseudonymCity(db: Tables, userA: Record, outA: Record, userB: Record, outB: Record)
    requires DbValid(db) && MaskedIn(db, userA, outA) && MaskedIn(db, userB, outB)
    requires CityTable in db && db[CityTable].autoId
    ensures Truthy(Get(userA, "city")) ==> Get(outA, "city").Int?
    ensures Truthy(Get(userA, "city")) && Truthy(Get(userB, "city")) ==>
      (Get(outA, "city") == Get(outB, "city") <==> Get(userA, "city") == Get(userB, "city"))
  {
    var a, b := Get(userA, "city"), Get(userB, "city");
    if Truthy(a) {
      MaskIdOfDistinct(db, CityTable, "city", a, if Truthy(b) then b else a);
    }
  }

  /** The same for zipcodes. */
  lemma PseudonymZipcode(db: Tables, userA: Record, outA: Record, userB: Record, outB: Record)
    requires DbValid(db) && MaskedIn(db, userA, outA) && MaskedIn(db, userB, outB)
    requires ZipcodeTable in db && db[ZipcodeTable].autoId
    ensures Truthy(Get(userA, "zipCode")) ==> Get(outA, "zipcode").Int?
    ensures Truthy(Get(userA, "zipCode")) && Truthy(Get(userB, "zipCode")) ==>
      (Get(outA, "zipcode") == Get(outB, "zipcode") <==> Get(userA, "zipCode") == Get(userB, "zipCode"))
  {
    var a, b := Get(userA, "zipCode"), Get(userB, "zipCode");
    if Truthy(a) {
      MaskIdOfDistinct(db, ZipcodeTable, "zipcode", a, if Truthy(b) then b else a);
    }
  }

  /** The same for professions, which sit inside the profile dict. */
  lemma PseudonymProfession(db: Tables, userA: Record, outA: Record, userB: Record, outB: Record)
    requires DbValid(db) && MaskedIn(db, userA, outA) && MaskedIn(db, userB, outB)
    requires ProfessionTable in db && db[ProfessionTable].autoId
    ensures Truthy(ProfessionOf(userA)) ==> ProfessionOf(outA).Int?
    ensures Truthy(ProfessionOf(userA)) && Truthy(ProfessionOf(userB)) ==>
      (ProfessionOf(outA) == ProfessionOf(outB) <==> ProfessionOf(userA) == ProfessionOf(userB))
  {
    var a, b := ProfessionOf(userA), ProfessionOf(userB);
    if Truthy(a) {
      GetSet(Get(userA, "profile").fields, "profession", MaskIdOf(db, ProfessionTable, "profession", a));
      if Truthy(b) {
        GetSet(Get(userB, "profile").fields, "profession", MaskIdOf(db, ProfessionTable, "profession", b));
      }
      MaskIdOfDistinct(db, ProfessionTable, "profession", a, if Truthy(b) then b else a);
    }
  }

  /**
   * Over a successful run into AUTO_INCREMENT mask tables, the masking is a
   * consistent pseudonymisation: a masked city is an integer id, and two users
   * share a masked city exactly when they share the raw city.
   */
  lemma SanitizeAllPseudonyms(db: Tables, users: seq<Record>, a: nat, b: nat)
    requires DbValid(db) && SanitizeAll(db, users).res.Ok? && a < |users| && b < |users|
    requires CityTable in db && db[CityTable].autoId
    ensures var out := SanitizeAll(db, users).res.value;
      Truthy(Get(users[a], "city")) && Truthy(Get(users[b], "city")) ==>
        Get(out[a], "city").Int? &&
        (Get(out[a], "city") == Get(out[b], "city") <==> Get(users[a], "city") == Get(users[b], "city"))
  {
    var run := SanitizeAll(db, users);
    SanitizeAllSpec(db, users);
    PseudonymCity(run.db, users[a], run.res.value[a], users[b], run.res.value[b]);
  }
}
