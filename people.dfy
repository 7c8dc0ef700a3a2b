/** Person records (Person.cs): the default state, FullName and CalculateAge. */
module People {
  import opened Wrappers

  /** A DateTime: calendar date plus the time of day in ticks; compared field by field. */
  datatype Date = Date(year: int, month: int, day: int, tick: int)

  /** default(DateTime), 0001-01-01 00:00. */
  const MinDate := Date(1, 1, 1, 0)

  /** DateTime's `<`: strictly earlier. */
  predicate Before(a: Date, b: Date)
  {
    a.year < b.year
    || (a.year == b.year && a.month < b.month)
    || (a.year == b.year && a.month == b.month && a.day < b.day)
    || (a.year == b.year && a.month == b.month && a.day == b.day && a.tick < b.tick)
  }

  /** DateTime's order is a strict total order. */
  lemma BeforeIsOrder()
    ensures forall a, b, c :: Before(a, b) && Before(b, c) ==> Before(a, c)
    ensures forall a, b :: !Before(a, b) && !Before(b, a) ==> a == b
    ensures forall a :: !Before(a, a)
  {
  }

  predicate IsLeapYear(y: int)
  {
    y % 4 == 0 && (y % 100 != 0 || y % 400 == 0)
  }

  /** DateTime.AddYears: same month, day and time; 29 February falls back to the 28th
      in a year that is not a leap year. */
  function AddYears(d: Date, n: int): (r: Date)
    ensures r.year == d.year + n && r.month == d.month && r.tick == d.tick
    ensures r.day == d.day || (d.month == 2 && d.day == 29 && r.day == 28)
    ensures r.day != d.day <==> d.month == 2 && d.day == 29 && !IsLeapYear(r.year)
  {
    var y := d.year + n;
    Date(y, d.month, if d.month == 2 && d.day == 29 && !IsLeapYear(y) then 28 else d.day, d.tick)
  }

  /** Moving a real date `n` years and back gives the date again exactly when it is not a
      29 February sent into a year that is not a leap year. */
  lemma AddYearsBack(d: Date, n: int)
    requires d.month == 2 && d.day == 29 ==> IsLeapYear(d.year)
    ensures AddYears(AddYears(d, n), -n) == d <==> !(d.month == 2 && d.day == 29 && !IsLeapYear(d.year + n))
  {
    var r := AddYears(d, n);
    assert r.year + -n == d.year;
  }

  datatype Person = Person(
    id: string,
    firstName: string,
    secondName: string,
    firstLastName: string,
    secondLastName: string,
    nationalId: string,
    birthDate: Date,
    isAlive: bool,
    deathDate: Option<Date>,
    age: int,
    photoUrl: string,
    latitude: real,
    longitude: real,
    address: string,
    parentIds: seq<string>,
    spouseIds: seq<string>,
    childrenIds: seq<string>)

  /** `new Person()`: the fresh id (a GUID in the source) is a parameter; every relationship
      list is empty and the person is alive. String properties, null in the source, are "". */
  function NewPerson(id: string): (p: Person)
    ensures p.id == id && p.isAlive && p.deathDate.None?
    ensures p.parentIds == [] && p.spouseIds == [] && p.childrenIds == []
    ensures p.birthDate == MinDate && p.age == 0 && p.latitude == 0.0 && p.longitude == 0.0
  {
    Person(id, "", "", "", "", "", MinDate, true, None, 0, "", 0.0, 0.0, "", [], [], [])
  }

  /** char.IsWhiteSpace: the Unicode space separators, line and paragraph separators,
      and the control characters U+0009..U+000D and U+0085. */
  predicate IsWhiteSpace(c: char)
  {
    c == ' ' || ('\U{9}' <= c <= '\U{D}') || c == '\U{85}' || c == '\U{A0}' || c == '\U{1680}'
    || ('\U{2000}' <= c <= '\U{200A}') || c == '\U{2028}' || c == '\U{2029}' || c == '\U{202F}'
    || c == '\U{205F}' || c == '\U{3000}'
  }

  /** string.IsNullOrWhiteSpace (null is modelled as ""). */
  predicate IsBlank(s: string)
  {
    forall i :: 0 <= i < |s| ==> IsWhiteSpace(s[i])
  }

  /** The name parts FullName shows: optional parts that are blank are dropped. */
  function NameParts(p: Person): (parts: seq<string>)
    ensures 2 <= |parts| <= 4 && parts[0] == p.firstName
  {
    [p.firstName]
    + (if IsBlank(p.secondName) then [] else [p.secondName])
    + [p.firstLastName]
    + (if IsBlank(p.secondLastName) then [] else [p.secondLastName])
  }

  /** Words joined by single spaces. */
  function JoinWords(ws: seq<string>): string
  {
    if |ws| == 0 then "" else if |ws| == 1 then ws[0] else ws[0] + " " + JoinWords(ws[1..])
  }

  /** The Person.FullName getter. */
  function FullName(p: Person): (name: string)
    ensures |name| >= |p.firstName| && name[..|p.firstName|] == p.firstName
    ensures var k := |p.firstName| + (if IsBlank(p.secondName) then 0 else 1 + |p.secondName|);
            k + 1 + |p.firstLastName| <= |name| && name[k..k + 1 + |p.firstLastName|] == " " + p.firstLastName
  {
    var name := p.firstName;
    var name := if IsBlank(p.secondName) then name else name + " " + p.secondName;
    assert name[..|p.firstName|] == p.firstName;
    var k := |name|;
    var name := name + " " + p.firstLastName;
    assert name[..k][..|p.firstName|] == p.firstName && name[k..] == " " + p.firstLastName;
    var full := if IsBlank(p.secondLastName) then name else name + " " + p.secondLastName;
    assert full[..|name|] == name;
    full
  }

  /** FullName is the non-blank name parts, with the first surname always present,
      joined by single spaces. */
  lemma FullNameJoinsParts(p: Person)
    ensures FullName(p) == JoinWords(NameParts(p))
  {
    var parts := NameParts(p);
    var tail := (if IsBlank(p.secondLastName) then [] else [p.secondLastName]);
    var rest := [p.firstLastName] + tail;
    assert JoinWords(rest) == p.firstLastName + (if IsBlank(p.secondLastName) then "" else " " + p.secondLastName) by {
      if !IsBlank(p.secondLastName) {
        assert rest[1..] == [p.secondLastName];
      }
    }
    if IsBlank(p.secondName) {
      assert parts == [p.firstName] + rest;
      assert parts[1..] == rest;
    } else {
      assert parts == [p.firstName, p.secondName] + rest;
      assert parts[1..] == [p.secondName] + rest;
      assert parts[1..][1..] == rest;
    }
  }

  /** The date CalculateAge measures to: "now" for the living, the death date for the dead
      when it is known, "now" otherwise. */
  function ReferenceDate(p: Person, now: Date): (d: Date)
    ensures !p.isAlive && p.deathDate.Some? ==> d == p.deathDate.value
    ensures p.isAlive || p.deathDate.None? ==> d == now
  {
    if p.isAlive then now else match p.deathDate { case Some(d) => d case None => now }
  }

  /** Completed years between `birth` and `at`: the year difference, one less when `at`
      falls before that year's anniversary. */
  function AgeAt(birth: Date, at: Date): (age: int)
    ensures age == at.year - birth.year || age == at.year - birth.year - 1
    ensures !Before(at, AddYears(birth, age)) && Before(at, AddYears(birth, age + 1))
  {
    var age := at.year - birth.year;
    if Before(at, AddYears(birth, age)) then age - 1 else age
  }

  /** The completed-years property pins the age down: no other count satisfies it. */
  lemma {:induction false} AgeAtUnique(birth: Date, at: Date, n: int)
    requires !Before(at, AddYears(birth, n)) && Before(at, AddYears(birth, n + 1))
    ensures n == AgeAt(birth, at)
  {
  }

  /** A reference date at or after the birth date gives an age of at least zero. */
  lemma AgeAtNonNegative(birth: Date, at: Date)
    requires !Before(at, birth)
    ensures AgeAt(birth, at) >= 0
  {
    if at.year == birth.year {
      var anniversary := AddYears(birth, 0);
      assert !Before(birth, anniversary) || anniversary == birth;
    }
  }

  /** Person.CalculateAge with "now" as a parameter: only the Age field changes. */
  function CalculateAge(p: Person, now: Date): (q: Person)
    ensures q == p.(age := q.age)
    ensures q.age == AgeAt(p.birthDate, ReferenceDate(p, now))
  {
    p.(age := AgeAt(p.birthDate, ReferenceDate(p, now)))
  }
}
