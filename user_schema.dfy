/**
 * The user record schemas of `query/user.ts`: roles, authorities, the
 * statistics, the user itself and the notification request, each a parse
 * from a JSON value to a record or to the list of the top-level fields that
 * failed.  `getMe` and `getUser` return what the user parse accepts and throw
 * otherwise, so the record they hand out is always a valid one.
 */
module UserSchema {
  import opened Wrappers

  /** A JSON value as `JSON.parse` gives it (numbers are finite). */
  datatype Json =
    | Null
    | Bool(b: bool)
    | Number(n: real)
    | Str(s: string)
    | Array(items: seq<Json>)
    | Object(fields: map<string, Json>)

  /** `Number.MAX_SAFE_INTEGER`, 2^53 - 1: `z.int()` accepts integers within it. */
  const MaxSafeInteger: int := 0x1F_FFFF_FFFF_FFFF

  predicate SafeInt(n: int)
  {
    -MaxSafeInteger <= n <= MaxSafeInteger
  }

  /** The length JavaScript reports for `s`: characters beyond U+FFFF take two UTF-16 code units. */
  function Utf16Length(s: string): (n: nat)
    ensures |s| <= n <= 2 * |s|
    ensures n == 0 <==> s == ""
  {
    if s == [] then 0 else (if s[0] as int > 0xFFFF then 2 else 1) + Utf16Length(s[1..])
  }

  /** A value `.nullish()` accepts: the key absent, `null`, or a value of the inner schema. */
  datatype Nullish<T> = Missing | Nil | Present(value: T)

  /** The value of `key` in an object; an absent key reads as `undefined`, here `None`. */
  function Field(fields: map<string, Json>, key: string): Option<Json>
  {
    if key in fields then Some(fields[key]) else None
  }

  /** `z.string()`. */
  function AString(v: Option<Json>): (r: Option<string>)
    ensures r.Some? <==> v.Some? && v.value.Str?
    ensures r.Some? ==> v.value == Str(r.value)
  {
    if v.Some? && v.value.Str? then Some(v.value.s) else None
  }

  /** `z.string().min(lo).max(hi)`, lengths in UTF-16 code units. */
  function BoundedString(v: Option<Json>, lo: nat, hi: nat): (r: Option<string>)
    ensures r.Some? <==> AString(v).Some? && lo <= Utf16Length(AString(v).value) <= hi
    ensures r.Some? ==> v.value == Str(r.value)
  {
    var s := AString(v);
    if s.Some? && lo <= Utf16Length(s.value) <= hi then s else None
  }

  /** `z.string().nonempty()`: at least one UTF-16 code unit, that is, not the empty string. */
  function NonEmptyString(v: Option<Json>): (r: Option<string>)
    ensures r.Some? <==> AString(v).Some? && AString(v).value != ""
    ensures r.Some? ==> v.value == Str(r.value)
  {
    var s := AString(v);
    if s.Some? && Utf16Length(s.value) >= 1 then s else None
  }

  /** `z.string().nullable()`: a string or `null`; an absent key is refused. */
  function NullableString(v: Option<Json>): (r: Option<Option<string>>)
    ensures r.Some? <==> v.Some? && (v.value.Null? || v.value.Str?)
    ensures r == Some(None) <==> v == Some(Null)
  {
    if v == Some(Null) then Some(None)
    else if v.Some? && v.value.Str? then Some(Some(v.value.s))
    else None
  }

  /** `z.int()`: a number that is a safe integer. */
  function AnInt(v: Option<Json>): (r: Option<int>)
    ensures r.Some? <==> v.Some? && v.value.Number? && v.value.n == v.value.n.Floor as real && SafeInt(v.value.n.Floor)
    ensures r.Some? ==> SafeInt(r.value) && v.value == Number(r.value as real)
  {
    if v.Some? && v.value.Number? && v.value.n == v.value.n.Floor as real && SafeInt(v.value.n.Floor)
    then Some(v.value.n.Floor) else None
  }

  /** `z.int().nullish()`. */
  function NullishInt(v: Option<Json>): (r: Option<Nullish<int>>)
    ensures v.None? ==> r == Some(Missing)
    ensures v == Some(Null) ==> r == Some(Nil)
    ensures r.Some? && r.value.Present? ==> AnInt(v) == Some(r.value.value)
    ensures r.None? <==> v.Some? && v.value != Null && AnInt(v).None?
  {
    if v.None? then Some(Missing)
    else if v.value.Null? then Some(Nil)
    else match AnInt(v)
      case Some(n) => Some(Present(n))
      case None => None
  }

  /** `z.array(item)`: every element parses, and the results keep their places. */
  function ParseArray<T>(items: seq<Json>, item: Json -> Option<T>): (r: Option<seq<T>>)
    ensures r.Some? <==> forall i :: 0 <= i < |items| ==> item(items[i]).Some?
    ensures r.Some? ==> |r.value| == |items| && forall i :: 0 <= i < |items| ==> r.value[i] == item(items[i]).value
  {
    if items == [] then Some([])
    else
      var rest := ParseArray(items[1..], item);
      assert forall i :: 1 <= i < |items| ==> items[i] == items[1..][i - 1];
      if item(items[0]).Some? && rest.Some? then Some([item(items[0]).value] + rest.value) else None
  }

  /** The result of `UserRoleSchema`. */
  datatype Role = Role(id: int, name: string, position: int, color: string, description: string)

  /** `UserRoleSchema`: the id and position are integers, the rest strings. */
  function ParseRole(j: Json): (r: Option<Role>)
    ensures r.Some? ==> SafeInt(r.value.id) && SafeInt(r.value.position)
    ensures r.Some? <==> && j.Object?
                         && AnInt(Field(j.fields, "id")).Some? && AnInt(Field(j.fields, "position")).Some?
                         && AString(Field(j.fields, "name")).Some? && AString(Field(j.fields, "color")).Some?
                         && AString(Field(j.fields, "description")).Some?
  {
    if !j.Object? then None
    else
      var id := AnInt(Field(j.fields, "id"));
      var name := AString(Field(j.fields, "name"));
      var position := AnInt(Field(j.fields, "position"));
      var color := AString(Field(j.fields, "color"));
      var description := AString(Field(j.fields, "description"));
      if id.Some? && name.Some? && position.Some? && color.Some? && description.Some? then
        Some(Role(id.value, name.value, position.value, color.value, description.value))
      else None
  }

  /** The result of `UserAuthoritySchema`. */
  datatype Authority = Authority(id: string, name: string, authorityGroup: string, description: string)

  /** `UserAuthoritySchema`: four strings. */
  function ParseAuthority(j: Json): (r: Option<Authority>)
    ensures r.Some? <==> && j.Object?
                         && AString(Field(j.fields, "id")).Some? && AString(Field(j.fields, "name")).Some?
                         && AString(Field(j.fields, "authorityGroup")).Some?
                         && AString(Field(j.fields, "description")).Some?
  {
    if !j.Object? then None
    else
      var id := AString(Field(j.fields, "id"));
      var name := AString(Field(j.fields, "name"));
      var group := AString(Field(j.fields, "authorityGroup"));
      var description := AString(Field(j.fields, "description"));
      if id.Some? && name.Some? && group.Some? && description.Some? then
        Some(Authority(id.value, name.value, group.value, description.value))
      else None
  }

  /** The result of `UserStatSchema`. */
  datatype Stats = Stats(exp: Nullish<int>, downloadCount: Nullish<int>)

  /** `UserStatSchema.nullish()`: absent, `null`, or an object whose two counters are integers, `null` or absent. */
  function ParseStats(v: Option<Json>): (r: Option<Nullish<Stats>>)
    ensures v.None? ==> r == Some(Missing)
    ensures v == Some(Null) ==> r == Some(Nil)
    ensures r.Some? && r.value.Present? ==>
              && v.Some? && v.value.Object?
              && NullishInt(Field(v.value.fields, "EXP")) == Some(r.value.value.exp)
              && NullishInt(Field(v.value.fields, "DOWNLOAD_COUNT")) == Some(r.value.value.downloadCount)
    ensures v.Some? && v.value.Object? ==>
              (r.Some? <==> NullishInt(Field(v.value.fields, "EXP")).Some?
                            && NullishInt(Field(v.value.fields, "DOWNLOAD_COUNT")).Some?)
  {
    if v.None? then Some(Missing)
    else if v.value.Null? then Some(Nil)
    else if !v.value.Object? then None
    else
      var exp := NullishInt(Field(v.value.fields, "EXP"));
      var downloads := NullishInt(Field(v.value.fields, "DOWNLOAD_COUNT"));
      if exp.Some? && downloads.Some? then Some(Present(Stats(exp.value, downloads.value))) else None
  }

  /** The result of `UserSchema`: what `getMe` and `getUser` return. */
  datatype User = User(
    id: string,
    name: string,
    imageUrl: Option<string>,
    thumbnail: Option<string>,
    stats: Nullish<Stats>,
    roles: seq<Role>,
    authorities: seq<Authority>,
    isBanned: bool)

  predicate ValidCount(c: Nullish<int>)
  {
    c.Present? ==> SafeInt(c.value)
  }

  /** What `UserSchema` guarantees about a record it accepts. */
  predicate ValidUser(u: User)
  {
    && u.id != ""
    && (u.stats.Present? ==> ValidCount(u.stats.value.exp) && ValidCount(u.stats.value.downloadCount))
    && forall i :: 0 <= i < |u.roles| ==> SafeInt(u.roles[i].id) && SafeInt(u.roles[i].position)
  }

  /** `z.boolean()`. */
  function ABool(v: Option<Json>): (r: Option<bool>)
    ensures r.Some? <==> v.Some? && v.value.Bool?
    ensures r.Some? ==> v.value == Bool(r.value)
  {
    if v.Some? && v.value.Bool? then Some(v.value.b) else None
  }

  /** `z.array(item)` on a field: an array whose elements all parse. */
  function ArrayOf<T>(v: Option<Json>, item: Json -> Option<T>): (r: Option<seq<T>>)
    ensures r.Some? ==> v.Some? && v.value.Array? && ParseArray(v.value.items, item) == r
    ensures v.Some? && v.value.Array? ==> r == ParseArray(v.value.items, item)
  {
    if v.Some? && v.value.Array? then ParseArray(v.value.items, item) else None
  }

  /** Each field of `UserSchema` read on its own: `None` where that field is refused. */
  datatype UserFields = UserFields(
    id: Option<string>,
    name: Option<string>,
    imageUrl: Option<Option<string>>,
    thumbnail: Option<Option<string>>,
    stats: Option<Nullish<Stats>>,
    roles: Option<seq<Role>>,
    authorities: Option<seq<Authority>>,
    isBanned: Option<bool>)

  function ReadFields(f: map<string, Json>): UserFields
  {
    UserFields(
      NonEmptyString(Field(f, "id")),
      AString(Field(f, "name")),
      NullableString(Field(f, "imageUrl")),
      NullableString(Field(f, "thumbnail")),
      ParseStats(Field(f, "stats")),
      ArrayOf(Field(f, "roles"), ParseRole),
      ArrayOf(Field(f, "authorities"), ParseAuthority),
      ABool(Field(f, "isBanned")))
  }

  /** The record when every field was accepted, otherwise the names of the refused fields in schema order. */
  function Assemble(p: UserFields): (r: Result<User, seq<string>>)
    ensures r.Failure? ==> r.error != []
  {
    if p.id.Some? && p.name.Some? && p.imageUrl.Some? && p.thumbnail.Some? && p.stats.Some? && p.roles.Some?
       && p.authorities.Some? && p.isBanned.Some?
    then
      Success(User(p.id.value, p.name.value, p.imageUrl.value, p.thumbnail.value, p.stats.value, p.roles.value,
                   p.authorities.value, p.isBanned.value))
    else
      Failure(Failed(p.id.Some?, "id") + Failed(p.name.Some?, "name") + Failed(p.imageUrl.Some?, "imageUrl")
              + Failed(p.thumbnail.Some?, "thumbnail") + Failed(p.stats.Some?, "stats")
              + Failed(p.roles.Some?, "roles") + Failed(p.authorities.Some?, "authorities")
              + Failed(p.isBanned.Some?, "isBanned"))
  }

  /**
   * `UserSchema.parse`: the record, or the top-level fields that failed (none
   * listed when the value is not an object at all).  Unknown keys are dropped.
   */
  function ParseUser(j: Json): (r: Result<User, seq<string>>)
    ensures r.Success? ==> ValidUser(r.value)
    ensures r.Success? ==> j.Object? && Field(j.fields, "id") == Some(Str(r.value.id))
                                     && Field(j.fields, "isBanned") == Some(Bool(r.value.isBanned))
    ensures !j.Object? ==> r == Failure([])
    ensures j.Object? && r.Failure? ==> r.error != []
  {
    if !j.Object? then Failure([]) else Assemble(ReadFields(j.fields))
  }

  /** A nullable string as JSON. */
  function NullableJson(s: Option<string>): Json
  {
    if s.Some? then Str(s.value) else Null
  }

  /** A counter as an object entry: no entry when it is absent. */
  function WithCount(fields: map<string, Json>, key: string, c: Nullish<int>): map<string, Json>
  {
    match c
    case Missing => fields
    case Nil => fields[key := Null]
    case Present(n) => fields[key := Number(n as real)]
  }

  function StatsJson(s: Stats): Json
  {
    Object(WithCount(WithCount(map[], "EXP", s.exp), "DOWNLOAD_COUNT", s.downloadCount))
  }

  function RoleJson(r: Role): Json
  {
    Object(map["id" := Number(r.id as real), "name" := Str(r.name), "position" := Number(r.position as real),
               "color" := Str(r.color), "description" := Str(r.description)])
  }

  function AuthorityJson(a: Authority): Json
  {
    Object(map["id" := Str(a.id), "name" := Str(a.name), "authorityGroup" := Str(a.authorityGroup),
               "description" := Str(a.description)])
  }

  function RolesJson(roles: seq<Role>): seq<Json>
  {
    seq(|roles|, i requires 0 <= i < |roles| => RoleJson(roles[i]))
  }

  function AuthoritiesJson(authorities: seq<Authority>): seq<Json>
  {
    seq(|authorities|, i requires 0 <= i < |authorities| => AuthorityJson(authorities[i]))
  }

  /** `JSON.stringify` of a user record, read back as a JSON value: absent stats leave no entry. */
  function UserJson(u: User): Json
  {
    var fields := map[
      "id" := Str(u.id), "name" := Str(u.name),
      "imageUrl" := NullableJson(u.imageUrl), "thumbnail" := NullableJson(u.thumbnail),
      "roles" := Array(RolesJson(u.roles)),
      "authorities" := Array(AuthoritiesJson(u.authorities)),
      "isBanned" := Bool(u.isBanned)];
    Object(match u.stats
           case Missing => fields
           case Nil => fields["stats" := Null]
           case Present(s) => fields["stats" := StatsJson(s)])
  }

  /** An integer within the safe range is read back as itself. */
  lemma {:induction false} IntRoundTrip(n: int)
    requires SafeInt(n)
    ensures AnInt(Some(Number(n as real))) == Some(n)
  {
    assert (n as real).Floor == n;
  }

  /** A counter that `UserStatSchema` accepts is read back from its entry as itself. */
  lemma {:induction false} CountRoundTrip(fields: map<string, Json>, key: string, c: Nullish<int>)
    requires ValidCount(c) && key !in fields
    ensures NullishInt(Field(WithCount(fields, key, c), key)) == Some(c)
  {
    if c.Present? {
      IntRoundTrip(c.value);
    }
  }

  /** An array parses to `xs` when each of its elements parses to the element of `xs` in its place. */
  lemma {:induction false} ArrayRoundTrip<T>(items: seq<Json>, xs: seq<T>, item: Json -> Option<T>)
    requires |items| == |xs|
    requires forall i :: 0 <= i < |items| ==> item(items[i]) == Some(xs[i])
    ensures ParseArray(items, item) == Some(xs)
  {
    var r := ParseArray(items, item);
    assert r.value == xs;
  }

  /** A statistics object the schema accepts is read back as itself. */
  lemma {:induction false} StatsRoundTrip(s: Stats)
    requires ValidCount(s.exp) && ValidCount(s.downloadCount)
    ensures ParseStats(Some(StatsJson(s))) == Some(Present(s))
  {
    var inner := WithCount(map[], "EXP", s.exp);
    CountRoundTrip(map[], "EXP", s.exp);
    CountRoundTrip(inner, "DOWNLOAD_COUNT", s.downloadCount);
    assert Field(WithCount(inner, "DOWNLOAD_COUNT", s.downloadCount), "EXP") == Field(inner, "EXP");
  }

  /** A role the schema accepts is read back as itself. */
  lemma {:induction false} RoleRoundTrip(r: Role)
    requires SafeInt(r.id) && SafeInt(r.position)
    ensures ParseRole(RoleJson(r)) == Some(r)
  {
    IntRoundTrip(r.id);
    IntRoundTrip(r.position);
  }

  /** A list of roles the schema accepts is read back as itself. */
  lemma {:induction false} RolesRoundTrip(roles: seq<Role>)
    requires forall i :: 0 <= i < |roles| ==> SafeInt(roles[i].id) && SafeInt(roles[i].position)
    ensures ParseArray(RolesJson(roles), ParseRole) == Some(roles)
  {
    forall i | 0 <= i < |roles|
      ensures ParseRole(RolesJson(roles)[i]) == Some(roles[i])
    {
      RoleRoundTrip(roles[i]);
    }
    ArrayRoundTrip(RolesJson(roles), roles, ParseRole);
  }

  /** A list of authorities is read back as itself. */
  lemma {:induction false} AuthoritiesRoundTrip(authorities: seq<Authority>)
    ensures ParseArray(AuthoritiesJson(authorities), ParseAuthority) == Some(authorities)
  {
    ArrayRoundTrip(AuthoritiesJson(authorities), authorities, ParseAuthority);
  }

  /** The entries of an encoded user, key by key. */
  lemma {:induction false} UserJsonEntries(u: User)
    ensures var f := UserJson(u).fields;
            && Field(f, "id") == Some(Str(u.id)) && Field(f, "name") == Some(Str(u.name))
            && Field(f, "imageUrl") == Some(NullableJson(u.imageUrl))
            && Field(f, "thumbnail") == Some(NullableJson(u.thumbnail))
            && Field(f, "stats") == (match u.stats
                                     case Missing => None
                                     case Nil => Some(Null)
                                     case Present(s) => Some(StatsJson(s)))
            && Field(f, "roles") == Some(Array(RolesJson(u.roles)))
            && Field(f, "authorities") == Some(Array(AuthoritiesJson(u.authorities)))
            && Field(f, "isBanned") == Some(Bool(u.isBanned))
  {
  }

  /** The fields of an encoded valid user are each read back as the user's own. */
  lemma {:induction false} UserJsonFields(u: User)
    requires ValidUser(u)
    ensures ReadFields(UserJson(u).fields)
            == UserFields(Some(u.id), Some(u.name), Some(u.imageUrl), Some(u.thumbnail), Some(u.stats),
                          Some(u.roles), Some(u.authorities), Some(u.isBanned))
  {
    var f := UserJson(u).fields;
    UserJsonEntries(u);
    assert NonEmptyString(Field(f, "id")) == Some(u.id);
    assert AString(Field(f, "name")) == Some(u.name);
    assert NullableString(Field(f, "imageUrl")) == Some(u.imageUrl);
    assert NullableString(Field(f, "thumbnail")) == Some(u.thumbnail);
    if u.stats.Present? {
      StatsRoundTrip(u.stats.value);
    }
    assert ParseStats(Field(f, "stats")) == Some(u.stats);
    RolesRoundTrip(u.roles);
    assert ArrayOf(Field(f, "roles"), ParseRole) == Some(u.roles);
    AuthoritiesRoundTrip(u.authorities);
    assert ArrayOf(Field(f, "authorities"), ParseAuthority) == Some(u.authorities);
    assert ABool(Field(f, "isBanned")) == Some(u.isBanned);
  }

  /**
   * Encoding a valid user and parsing it again gives the same user: every
   * record `getMe` or `getUser` can return survives the schema unchanged.
   */
  lemma {:induction false} UserRoundTrip(u: User)
    requires ValidUser(u)
    ensures ParseUser(UserJson(u)) == Success(u)
  {
    UserJsonFields(u);
  }

  /** A user record parsed once parses again to itself after encoding: parsing is idempotent. */
  lemma {:induction false} ParseUserIdempotent(j: Json)
    requires ParseUser(j).Success?
    ensures ParseUser(UserJson(ParseUser(j).value)) == ParseUser(j)
  {
    UserRoundTrip(ParseUser(j).value);
  }

  /** `imageUrl` and `thumbnail` may be `null`, but an object without them is refused. */
  lemma {:induction false} ImageFieldsNullableNotOptional(fields: map<string, Json>, key: string)
    requires key == "imageUrl" || key == "thumbnail"
    requires key !in fields || fields[key] == Number(0.0)
    ensures ParseUser(Object(fields)).Failure? && key in ParseUser(Object(fields)).error
  {
  }

  /** An empty `id` is refused. */
  lemma {:induction false} EmptyIdRefused(fields: map<string, Json>)
    requires "id" in fields && fields["id"] == Str("")
    ensures ParseUser(Object(fields)).Failure? && "id" in ParseUser(Object(fields)).error
  {
  }

  /** Keys the schema does not name are dropped: two objects that agree on its keys parse alike. */
  lemma {:induction false} UnknownKeysIgnored(f: map<string, Json>, g: map<string, Json>)
    requires forall k :: k in ["id", "name", "imageUrl", "thumbnail", "stats", "roles", "authorities", "isBanned"] ==>
               Field(f, k) == Field(g, k)
    ensures ParseUser(Object(f)) == ParseUser(Object(g))
  {
    assert Field(f, "id") == Field(g, "id") && Field(f, "name") == Field(g, "name");
    assert Field(f, "imageUrl") == Field(g, "imageUrl") && Field(f, "thumbnail") == Field(g, "thumbnail");
    assert Field(f, "stats") == Field(g, "stats") && Field(f, "roles") == Field(g, "roles");
    assert Field(f, "authorities") == Field(g, "authorities") && Field(f, "isBanned") == Field(g, "isBanned");
  }

  /** The request body of `sendNotification`. */
  datatype Notification = Notification(title: string, content: string, userId: string)

  /** What `SendNotificationSchema` demands of a notification. */
  predicate ValidNotification(n: Notification)
  {
    && 1 <= Utf16Length(n.title) <= 1024
    && 1 <= Utf16Length(n.content) <= 4096
    && n.userId != ""
  }

  /** `SendNotificationSchema.parse`: a bounded title and content and a non-empty recipient. */
  function ParseNotification(j: Json): (r: Result<Notification, seq<string>>)
    ensures r.Success? ==> ValidNotification(r.value)
    ensures !j.Object? ==> r == Failure([])
    ensures j.Object? ==>
              (r.Success? <==> && AString(Field(j.fields, "title")).Some?
                               && AString(Field(j.fields, "content")).Some?
                               && AString(Field(j.fields, "userId")).Some?
                               && ValidNotification(Notification(AString(Field(j.fields, "title")).value,
                                                                 AString(Field(j.fields, "content")).value,
                                                                 AString(Field(j.fields, "userId")).value)))
  {
    if !j.Object? then Failure([])
    else
      var title := BoundedString(Field(j.fields, "title"), 1, 1024);
      var content := BoundedString(Field(j.fields, "content"), 1, 4096);
      var userId := NonEmptyString(Field(j.fields, "userId"));
      if title.Some? && content.Some? && userId.Some? then Success(Notification(title.value, content.value, userId.value))
      else Failure(Failed(title.Some?, "title") + Failed(content.Some?, "content") + Failed(userId.Some?, "userId"))
  }

  function NotificationJson(n: Notification): Json
  {
    Object(map["title" := Str(n.title), "content" := Str(n.content), "userId" := Str(n.userId)])
  }

  /** A notification is accepted exactly when it is valid, and then read back unchanged. */
  lemma {:induction false} NotificationRoundTrip(n: Notification)
    ensures ParseNotification(NotificationJson(n)).Success? <==> ValidNotification(n)
    ensures ValidNotification(n) ==> ParseNotification(NotificationJson(n)) == Success(n)
  {
  }

  /** A title of 1025 code units, or content of 4097, is refused on that field. */
  lemma {:induction false} NotificationTooLong(n: Notification)
    requires Utf16Length(n.title) > 1024 || Utf16Length(n.content) > 4096
    ensures var r := ParseNotification(NotificationJson(n));
            r.Failure? && (Utf16Length(n.title) > 1024 ==> "title" in r.error)
                       && (Utf16Length(n.content) > 4096 ==> "content" in r.error)
  {
  }
}
