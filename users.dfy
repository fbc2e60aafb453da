/** The immutable chat user value (src/User.java) and the dates it carries. */
module Users {
  import opened Common

  /** A calendar date as java.time.LocalDate holds it. */
  datatype Date = Date(year: int, month: int, day: int)

  const MIN_YEAR := -999_999_999
  const MAX_YEAR := 999_999_999

  /** The proleptic ISO leap-year rule. */
  predicate IsLeapYear(year: int)
  {
    year % 4 == 0 && (year % 100 != 0 || year % 400 == 0)
  }

  function DaysInMonth(year: int, month: int): (n: int)
    requires 1 <= month <= 12
    ensures 28 <= n <= 31
    ensures n == 29 <==> month == 2 && IsLeapYear(year)
  {
    if month == 2 then (if IsLeapYear(year) then 29 else 28)
    else if month == 4 || month == 6 || month == 9 || month == 11 then 30
    else 31
  }

  /** The triples `LocalDate.of(year, month, day)` accepts; any other one makes it throw. */
  predicate IsValidDate(d: Date)
  {
    MIN_YEAR <= d.year <= MAX_YEAR && 1 <= d.month <= 12 && 1 <= d.day <= DaysInMonth(d.year, d.month)
  }

  /**
   * A chat user. `User(name, None)` is the one-argument constructor (no birth date),
   * `User(name, Some(date))` the two-argument one; both store their arguments unchanged.
   */
  datatype User = User(userName: Bytes, birthDate: Option<Date>)

  /** `equalsByName`: the names alone decide. */
  predicate EqualsByName(a: User, b: User)
  {
    a.userName == b.userName
  }

  /** `equals(Object)`: `obj` is None for null or for an object that is not a User. */
  predicate Equals(a: User, obj: Option<User>)
    ensures Equals(a, obj) ==> obj.Some? && EqualsByName(a, obj.value) && a.birthDate == obj.value.birthDate
  {
    obj.Some? && a.userName == obj.value.userName
    && (if a.birthDate.None? then obj.value.birthDate.None? else a.birthDate == obj.value.birthDate)
  }

  /** Some entry of `users` has this name (the negation of `noneMatch(user::equalsByName)`). */
  predicate HasName(users: seq<User>, name: Bytes)
  {
    exists i :: 0 <= i < |users| && users[i].userName == name
  }

  /** Appending one user adds exactly its name to those present. */
  lemma HasNameAppend(users: seq<User>, u: User, name: Bytes)
    ensures HasName(users + [u], name) <==> HasName(users, name) || u.userName == name
  {
    var all := users + [u];
    if HasName(all, name) && u.userName != name {
      var i :| 0 <= i < |all| && all[i].userName == name;
      assert i < |users| && users[i].userName == name;
    }
    if HasName(users, name) {
      var i :| 0 <= i < |users| && users[i].userName == name;
      assert all[i].userName == name;
    }
    assert all[|users|] == u;
  }

  /** No two entries share a name. */
  predicate DistinctNames(users: seq<User>)
  {
    forall i, j :: 0 <= i < j < |users| ==> users[i].userName != users[j].userName
  }

  /** The names of `users`, in order. */
  function Names(users: seq<User>): (names: seq<Bytes>)
    ensures |names| == |users|
    ensures forall i :: 0 <= i < |users| ==> names[i] == users[i].userName
  {
    seq(|users|, i requires 0 <= i < |users| => users[i].userName)
  }

  /** Full equality is value equality of the record; a non-User (or null) argument is never equal. */
  lemma EqualsIsValueEquality(a: User, b: User)
    ensures Equals(a, Some(b)) <==> a == b
    ensures !Equals(a, None)
  {
  }

  /** `equalsByName` is an equivalence relation, and `equals` refines it. */
  lemma EqualsByNameIsEquivalence(a: User, b: User, c: User)
    ensures EqualsByName(a, a)
    ensures EqualsByName(a, b) ==> EqualsByName(b, a)
    ensures EqualsByName(a, b) && EqualsByName(b, c) ==> EqualsByName(a, c)
    ensures Equals(a, Some(b)) ==> EqualsByName(a, b)
  {
  }

  /** The converse fails: a name-only user is not equal to a dated user of the same name. */
  lemma NameOnlyDiffersFromDated(name: Bytes, date: Date)
    ensures EqualsByName(User(name, None), User(name, Some(date)))
    ensures !Equals(User(name, None), Some(User(name, Some(date))))
    ensures !Equals(User(name, Some(date)), Some(User(name, None)))
  {
  }
}
