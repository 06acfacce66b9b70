/** The computing lambdas of the lambda demo: `add`, `fizzBuzz`, and the
    `Where(p => p.Age >= 30)` query over `Person`. */
module Lambdas {
  import opened CSharpInt
  import opened Decimal

  /** `(x, y) => x + y` over `int`. C# compiles it unchecked by default, so a sum
      outside the `int` range wraps around instead of throwing. */
  function Add(x: Int32, y: Int32): (r: Int32)
    ensures IntMin <= x + y <= IntMax ==> r == x + y
    ensures (x + y - r) % Modulus == 0
  {
    Wrap32(x + y)
  }

  lemma AddFiveThree()
    ensures Add(5, 3) == 8
  {
  }

  /** The `fizzBuzz` block lambda. Its guards use C#'s truncating `%`; the
      contract states the outcome in terms of divisibility, so exactly one of
      the four outcomes holds for every `n`. */
  function FizzBuzz(n: Int32): (r: string)
    ensures r == "FizzBuzz" <==> n % 3 == 0 && n % 5 == 0
    ensures r == "Fizz" <==> n % 3 == 0 && n % 5 != 0
    ensures r == "Buzz" <==> n % 3 != 0 && n % 5 == 0
    ensures r == IntToString(n) <==> n % 3 != 0 && n % 5 != 0
  {
    var s := IntToString(n);
    assert s[0] == '-' || IsDigit(s[0]);
    if Rem(n, 3) == 0 && Rem(n, 5) == 0 then "FizzBuzz"
    else if Rem(n, 3) == 0 then "Fizz"
    else if Rem(n, 5) == 0 then "Buzz"
    else s
  }

  lemma FizzBuzzOfFifteen()
    ensures FizzBuzz(15) == "FizzBuzz"
  {
  }

  /** The number behind a plain numeric fizzBuzz answer can be read back from it. */
  lemma FizzBuzzNumberReadsBack(n: Int32)
    requires n % 3 != 0 && n % 5 != 0
    ensures ParseInt(FizzBuzz(n)) == n
  {
    IntToStringRoundTrip(n);
  }

  datatype Person = Person(name: string, age: Int32)

  /** The predicate of the LINQ query `p => p.Age >= 30`. */
  predicate IsAdult(p: Person) {
    p.age >= 30
  }

  /** `people.Where(p => p.Age >= 30)`, enumerated in full. */
  function Adults(people: seq<Person>): (r: seq<Person>)
    ensures |r| <= |people|
    ensures forall x :: x in r ==> x in people && IsAdult(x)
    decreases |people|
  {
    if people == [] then []
    else
      var init, last := people[..|people| - 1], people[|people| - 1];
      Adults(init) + (if IsAdult(last) then [last] else [])
  }

  /** The query keeps each adult exactly as often as it occurs in `people` and
      drops everyone else. */
  lemma {:induction false} AdultsKeepsExactlyTheAdults(people: seq<Person>, x: Person)
    ensures multiset(Adults(people))[x] == if IsAdult(x) then multiset(people)[x] else 0
    decreases |people|
  {
    if people != [] {
      var init, last := people[..|people| - 1], people[|people| - 1];
      assert people == init + [last];
      AdultsKeepsExactlyTheAdults(init, x);
    }
  }

  /** The query keeps the original order: filtering a concatenation is the
      concatenation of the filtered parts. */
  lemma {:induction false} AdultsOfConcat(a: seq<Person>, b: seq<Person>)
    ensures Adults(a + b) == Adults(a) + Adults(b)
    decreases |b|
  {
    if b == [] {
      assert a + b == a;
    } else {
      var init, last := b[..|b| - 1], b[|b| - 1];
      var tail := if IsAdult(last) then [last] else [];
      assert (a + b)[..|a + b| - 1] == a + init;
      assert (a + b)[|a + b| - 1] == last;
      assert Adults(a + b) == Adults(a + init) + tail;
      AdultsOfConcat(a, init);
      assert Adults(b) == Adults(init) + tail;
    }
  }

  lemma AdultsOfOne(p: Person)
    ensures Adults([p]) == if IsAdult(p) then [p] else []
  {
    assert [p][..0] == [];
  }

  function Names(people: seq<Person>): (r: seq<string>)
    ensures |r| == |people|
    ensures forall i :: 0 <= i < |people| ==> r[i] == people[i].name
  {
    seq(|people|, i requires 0 <= i < |people| => people[i].name)
  }

  const Alice: Person := Person("Alice", 30)
  const Bob: Person := Person("Bob", 25)
  const Charlie: Person := Person("Charlie", 35)
  const SamplePeople: seq<Person> := [Alice, Bob, Charlie]

  /** The demo's list: Alice (30) and Charlie (35) pass, Bob (25) does not. */
  lemma SampleAdults()
    ensures Adults(SamplePeople) == [Alice, Charlie]
    ensures Names(Adults(SamplePeople)) == ["Alice", "Charlie"]
  {
    assert IsAdult(Alice) && !IsAdult(Bob) && IsAdult(Charlie);
    assert SamplePeople[..2] == [Alice, Bob];
    assert [Alice, Bob][..1] == [Alice];
    assert [Alice][..0] == [];
    assert Adults([Alice]) == [Alice];
    assert Adults([Alice, Bob]) == [Alice];
    assert Adults(SamplePeople) == [Alice] + [Charlie];
  }
}
