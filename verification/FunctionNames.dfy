/**
 The renaming of user functions to names that the Harmony format allows, and back. Names
 that collide are numbered; the way back works for as long as no built-in name takes over a
 name that was handed out before.
 */
module FunctionNames {
  import opened Text

  const BUILT_INS := ["browser.open", "browser.search", "browser.find", "python"]

  predicate IsBuiltIn(name: string) {
    name in BUILT_INS
  }

  // ----- decimal numbers -----

  function Digit(d: nat): char
    requires d < 10
  {
    '0' + d as char
  }

  /** `fmt.Sprintf("%d", n)`. */
  function Decimal(n: nat): (s: string)
    ensures s != []
  {
    if n < 10 then [Digit(n)] else Decimal(n / 10) + [Digit(n % 10)]
  }

  lemma {:induction false} DecimalIsInjective(m: nat, n: nat)
    requires Decimal(m) == Decimal(n)
    ensures m == n
  {
    var s := Decimal(n);
    var last := s[|s| - 1];
    if m >= 10 && n >= 10 {
      assert s[..|s| - 1] == Decimal(m / 10) == Decimal(n / 10);
      assert last == Digit(m % 10) == Digit(n % 10);
      DecimalIsInjective(m / 10, n / 10);
    } else {
      assert m < 10 && n < 10;
      assert last == Digit(m) == Digit(n);
    }
  }

  /** The number that a text of digits stands for. */
  function Value(s: string): int {
    if s == [] then 0 else 10 * Value(s[..|s| - 1]) + (s[|s| - 1] as int - '0' as int)
  }

  /** A number is printed with decimal digits, without a leading zero. */
  lemma {:induction false} DecimalIsRead(n: nat)
    ensures Value(Decimal(n)) == n && (forall c | c in Decimal(n) :: '0' <= c <= '9') && (n > 0 ==> Decimal(n)[0] != '0')
  {
    if n >= 10 {
      DecimalIsRead(n / 10);
      var s := Decimal(n / 10) + [Digit(n % 10)];
      assert s[..|s| - 1] == Decimal(n / 10);
    } else {
      assert [Digit(n)][..0] == [];
    }
  }

  /** The n-th name tried for a candidate that is taken. */
  function Numbered(candidate: string, n: nat): string {
    candidate + "_" + Decimal(n)
  }

  lemma NumberedIsInjective(candidate: string, m: nat, n: nat)
    requires Numbered(candidate, m) == Numbered(candidate, n)
    ensures m == n
  {
    assert Numbered(candidate, m)[|candidate| + 1..] == Decimal(m);
    assert Numbered(candidate, n)[|candidate| + 1..] == Decimal(n);
    DecimalIsInjective(m, n);
  }

  // ----- the two maps -----

  /** Character classes, as the Unicode tables of the Go runtime define them. */
  datatype CharClasses = CharClasses(isLetter: char -> bool, isDigit: char -> bool)

  function ValidChars(classes: CharClasses, name: string): string {
    if name == [] then []
    else
      var r := name[0];
      var kept :=
        if r == ' ' || r == '-' || r == '.' then "_"
        else if classes.isLetter(r) || classes.isDigit(r) || r == '_' || r == '$' then [r]
        else [];
      kept + ValidChars(classes, name[1..])
  }

  /** `convertToValidChars`; only an ASCII digit in front gets an underscore, as the code tests one byte. */
  function ToValidChars(classes: CharClasses, name: string): string {
    var candidate := ValidChars(classes, name);
    if candidate == [] then "unnamed"
    else if '0' <= candidate[0] <= '9' then "_" + candidate
    else candidate
  }

  predicate IsAllowed(classes: CharClasses, c: char) {
    classes.isLetter(c) || classes.isDigit(c) || c == '_' || c == '$'
  }

  /** What stays of one character. */
  function Kept(classes: CharClasses, c: char): string {
    if c in {' ', '-', '.'} then "_" else if IsAllowed(classes, c) then [c] else ""
  }

  function KeptOf(classes: CharClasses, name: string): string {
    if name == [] then [] else KeptOf(classes, name[..|name| - 1]) + Kept(classes, name[|name| - 1])
  }

  lemma {:induction false} ValidCharsAppend(classes: CharClasses, a: string, b: string)
    ensures ValidChars(classes, a + b) == ValidChars(classes, a) + ValidChars(classes, b)
  {
    if a == [] {
      AppendNothing(b);
      AppendNothing(ValidChars(classes, b));
    } else {
      assert (a + b)[0] == a[0] && (a + b)[1..] == a[1..] + b;
      ValidCharsAppend(classes, a[1..], b);
    }
  }

  /** Blanks, hyphens and dots become underscores, what is allowed stays, and all other characters are dropped. */
  lemma {:induction false} ValidCharsAre(classes: CharClasses, name: string)
    ensures ValidChars(classes, name) == KeptOf(classes, name)
    decreases |name|
  {
    if name != [] {
      var last := name[|name| - 1];
      ValidCharsAre(classes, name[..|name| - 1]);
      ValidCharsAppend(classes, name[..|name| - 1], [last]);
      assert name[..|name| - 1] + [last] == name && [last][1..] == [];
    }
  }

  lemma {:induction false} KeptIsAllowed(classes: CharClasses, name: string)
    ensures forall c | c in KeptOf(classes, name) :: IsAllowed(classes, c)
    decreases |name|
  {
    if name != [] {
      KeptIsAllowed(classes, name[..|name| - 1]);
    }
  }

  /** The candidate for a name is not empty, has allowed characters only, and starts with no decimal digit. */
  lemma CandidateIsAllowed(classes: CharClasses, name: string)
    requires forall c | c in "unnamed" :: classes.isLetter(c)
    ensures var candidate := ToValidChars(classes, name);
      && candidate != "" && !('0' <= candidate[0] <= '9') && (forall c | c in candidate :: IsAllowed(classes, c))
      && (AllStay(classes, name) && name != "" && !('0' <= name[0] <= '9') ==> candidate == name)
  {
    ValidCharsAre(classes, name);
    KeptIsAllowed(classes, name);
    if AllStay(classes, name) {
      AllowedStays(classes, name);
    }
  }

  /** All characters are allowed, and none becomes an underscore. */
  predicate AllStay(classes: CharClasses, name: string) {
    name == [] || (IsAllowed(classes, name[0]) && name[0] !in {' ', '-', '.'} && AllStay(classes, name[1..]))
  }

  lemma {:induction false} AllowedStays(classes: CharClasses, name: string)
    requires AllStay(classes, name)
    ensures ValidChars(classes, name) == name
  {
    if name != [] {
      AllowedStays(classes, name[1..]);
    }
  }

  /** The name that `candidate` gets when the names in `taken` are taken: the first free one. */
  ghost predicate IsFirstFree(taken: set<string>, candidate: string, name: string) {
    && name !in taken
    && (name != candidate ==>
          && candidate in taken
          && exists n: nat | 2 <= n ::
               name == Numbered(candidate, n) && forall k: nat | 2 <= k < n :: Numbered(candidate, k) in taken)
  }

  /** Names that are taken are numbered from 2 on. */
  lemma SecondIsNumberedTwo(taken: set<string>, candidate: string, name: string)
    requires IsFirstFree(taken, candidate, name)
    ensures candidate !in taken ==> name == candidate
    ensures candidate in taken && candidate + "_2" !in taken ==> name == candidate + "_2"
  {
    assert Digit(2) == '2' && Decimal(2) == "2";
    assert candidate + "_" + "2" == candidate + "_2";
    assert Numbered(candidate, 2) == candidate + "_2";
  }

  datatype Maps = Maps(userToHarmony: map<string, string>, harmonyToUser: map<string, string>) {
    /** `OriginalFromConverted`: an unknown name stands for itself. */
    function Original(name: string): string {
      if name in harmonyToUser then harmonyToUser[name] else name
    }
  }

  /** What `ConvertAndAdd(user)` may do: the maps it leaves and the name it returns. */
  ghost predicate Converts(classes: CharClasses, before: Maps, user: string, name: string, after: Maps) {
    && (if IsBuiltIn(user) then name == user
        else IsFirstFree(before.harmonyToUser.Keys, ToValidChars(classes, user), name))
    && after == Maps(before.userToHarmony[user := name], before.harmonyToUser[name := user])
  }

  class FunctionNameMap {
    var userToHarmony: map<string, string>
    var harmonyToUser: map<string, string>
    const classes: CharClasses

    constructor (classes: CharClasses)
      ensures this.classes == classes && Contents() == Maps(map[], map[])
    {
      this.classes := classes;
      userToHarmony, harmonyToUser := map[], map[];
    }

    function Contents(): Maps
      reads this
    {
      Maps(userToHarmony, harmonyToUser)
    }

    /** Try the candidate and then its numbered variants; there are only finitely many names to skip. */
    method DeriveName(user: string) returns (candidate: string)
      ensures IsFirstFree(harmonyToUser.Keys, ToValidChars(classes, user), candidate)
    {
      var original := ToValidChars(classes, user);
      candidate := original;
      var count: nat := 2;
      ghost var skipped: set<string> := {};
      while candidate in harmonyToUser
        invariant count >= 2
        invariant skipped <= harmonyToUser.Keys
        invariant candidate == if count == 2 then original else Numbered(original, count - 1)
        invariant count > 2 ==> original in harmonyToUser
        invariant forall k: nat | 2 <= k < count - 1 :: Numbered(original, k) in harmonyToUser
        invariant forall s | s in skipped :: s == original || exists k: nat | 2 <= k < count - 1 :: s == Numbered(original, k)
        invariant count == 2 ==> skipped == {}
        decreases harmonyToUser.Keys - skipped
      {
        assert candidate !in skipped by {
          forall k: nat | 2 <= k < count - 1
            ensures candidate != Numbered(original, k) && candidate != original
          {
            if candidate == Numbered(original, k) {
              NumberedIsInjective(original, count - 1, k);
            }
          }
          assert count > 2 ==> |candidate| > |original|;
        }
        skipped := skipped + {candidate};
        candidate := Numbered(original, count);
        count := count + 1;
      }
      assert |Numbered(original, count)| > |original|;
    }

    method ConvertAndAdd(user: string) returns (name: string)
      modifies this
      ensures Converts(classes, old(Contents()), user, name, Contents())
    {
      name := DeriveName(user);
      if user == "browser.open" || user == "browser.search" || user == "browser.find" || user == "python" {
        name := user;
      }
      userToHarmony := userToHarmony[user := name];
      harmonyToUser := harmonyToUser[name := user];
    }

    method OriginalFromConverted(name: string) returns (user: string)
      ensures user == Contents().Original(name)
    {
      if name in harmonyToUser {
        return harmonyToUser[name];
      }
      return name;
    }
  }

  // ----- every run -----

  /** A run of conversions: what was asked for, what was returned, and the maps in between. */
  datatype Run = Run(users: seq<string>, names: seq<string>, maps: seq<Maps>) {
    ghost predicate Valid(classes: CharClasses) {
      && |users| == |names| == |maps| - 1
      && maps[0] == Maps(map[], map[])
      && forall i | 0 <= i < |users| :: Converts(classes, maps[i], users[i], names[i], maps[i + 1])
    }
  }

  /** A step takes the way back from no name, unless a built-in function takes over its name. */
  lemma StepKeepsWayBack(classes: CharClasses, before: Maps, user: string, name: string, after: Maps)
    requires Converts(classes, before, user, name, after)
    ensures (forall n | n in before.harmonyToUser :: after.Original(n) == before.Original(n))
            <==> !(IsBuiltIn(user) && user in before.harmonyToUser && before.harmonyToUser[user] != user)
  {
    assert after.Original(name) == user;
  }

  /** Step i gives the name of an earlier, other function to a built-in function. */
  ghost predicate TakesOver(run: Run, i: nat)
    requires i < |run.users| && i < |run.maps|
  {
    IsBuiltIn(run.users[i]) && run.users[i] in run.maps[i].harmonyToUser && run.maps[i].harmonyToUser[run.users[i]] != run.users[i]
  }

  /** A name that was handed out leads back to its function until a built-in function takes it over. */
  lemma {:induction false} WayBack(classes: CharClasses, run: Run, i: nat, j: nat)
    requires run.Valid(classes) && i < j <= |run.users|
    requires forall k | i < k < j :: !TakesOver(run, k)
    ensures run.names[i] in run.maps[j].harmonyToUser && run.maps[j].Original(run.names[i]) == run.users[i]
  {
    assert Converts(classes, run.maps[j - 1], run.users[j - 1], run.names[j - 1], run.maps[j]);
    if i + 1 < j {
      WayBack(classes, run, i, j - 1);
      assert !TakesOver(run, j - 1);
    }
  }

  /** Every entry of the map was made by an earlier step. */
  lemma {:induction false} MadeByAStep(classes: CharClasses, run: Run, j: nat, name: string) returns (k: nat)
    requires run.Valid(classes) && j <= |run.users| && name in run.maps[j].harmonyToUser
    ensures k < j && run.names[k] == name && run.users[k] == run.maps[j].harmonyToUser[name]
  {
    assert j > 0;
    assert Converts(classes, run.maps[j - 1], run.users[j - 1], run.names[j - 1], run.maps[j]);
    if name == run.names[j - 1] {
      k := j - 1;
    } else {
      k := MadeByAStep(classes, run, j - 1, name);
    }
  }

  /** In every run, all names lead back at all later times exactly when no built-in function takes a name over. */
  lemma WayBackExactly(classes: CharClasses, run: Run)
    requires run.Valid(classes)
    ensures (forall i, j | 0 <= i < j <= |run.users| :: run.maps[j].Original(run.names[i]) == run.users[i])
            <==> (forall k | 0 <= k < |run.users| :: !TakesOver(run, k))
  {
    if forall k | 0 <= k < |run.users| :: !TakesOver(run, k) {
      forall i, j | 0 <= i < j <= |run.users|
        ensures run.maps[j].Original(run.names[i]) == run.users[i]
      {
        WayBack(classes, run, i, j);
      }
    } else {
      var k :| 0 <= k < |run.users| && TakesOver(run, k);
      var i := MadeByAStep(classes, run, k, run.users[k]);
      assert Converts(classes, run.maps[k], run.users[k], run.names[k], run.maps[k + 1]);
      assert run.maps[k + 1].Original(run.names[i]) != run.users[i];
    }
  }

  /**
   In every run without built-in names the returned names are pairwise distinct, and at all
   later times each of them leads back to the function it was made for.
   */
  lemma NamesAreDistinctAndInvertible(classes: CharClasses, run: Run)
    requires run.Valid(classes) && forall u | u in run.users :: !IsBuiltIn(u)
    ensures forall i, j | 0 <= i < j < |run.names| :: run.names[i] != run.names[j]
    ensures forall i, j | 0 <= i < j <= |run.users| :: run.maps[j].Original(run.names[i]) == run.users[i]
  {
    assert forall k | 0 <= k < |run.users| :: run.users[k] in run.users && !TakesOver(run, k);
    WayBackExactly(classes, run);
    forall i, j | 0 <= i < j < |run.names|
      ensures run.names[i] != run.names[j]
    {
      WayBack(classes, run, i, j);
      assert Converts(classes, run.maps[j], run.users[j], run.names[j], run.maps[j + 1]);
    }
  }

  /** With built-in names the way back can be lost: "python!" becomes "python", and then python comes. */
  lemma BuiltInTakesOver(classes: CharClasses, run: Run)
    requires forall c | c in "python" :: classes.isLetter(c)
    requires !classes.isLetter('!') && !classes.isDigit('!')
    requires run.Valid(classes) && run.users == ["python!", "python"]
    ensures run.names == ["python", "python"] && run.maps[2].Original(run.names[0]) == "python"
  {
    ValidCharsOfLetters(classes, "python", '!');
    assert "python" + ['!'] == "python!";
    assert Converts(classes, run.maps[0], run.users[0], run.names[0], run.maps[1]);
    assert Converts(classes, run.maps[1], run.users[1], run.names[1], run.maps[2]);
  }

  lemma {:induction false} ValidCharsOfLetters(classes: CharClasses, s: string, dropped: char)
    requires forall i | 0 <= i < |s| :: classes.isLetter(s[i]) && s[i] != ' ' && s[i] != '-' && s[i] != '.'
    requires !classes.isLetter(dropped) && !classes.isDigit(dropped) && dropped !in " -._$"
    ensures ValidChars(classes, s + [dropped]) == s
  {
    if s == [] {
      assert (s + [dropped])[1..] == [];
    } else {
      ValidCharsOfLetters(classes, s[1..], dropped);
      assert (s + [dropped])[1..] == s[1..] + [dropped];
    }
  }
}
