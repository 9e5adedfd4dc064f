/** The constrained password generator of internal/provider/resource_user.go.

    Randomness is an oracle: one stream `draws` of naturals, consumed in the
    order the generator asks for random numbers. A request for a number below
    `n` (Go's `rand.Intn(n)`) takes the next draw modulo `n`, so every index
    the generator could pick is reachable. The shuffle is Go's Fisher-Yates:
    for `i` from the last index down to 1 it swaps position `i` with a drawn
    position `j` in `[0, i]`. All alphabets are ASCII, so one character is
    one rune and one byte. */
module Password {

  const LowerCharSet := "abcdefghijklmnopqrstuvwxyz"
  const UpperCharSet := "ABCDEFGHIJKLMNOPQRSTUVWXYZ"
  const SpecialCharSet := "!@#$%&*+-_?.,"
  const NumberSet := "0123456789"
  const AllCharSet := LowerCharSet + UpperCharSet + SpecialCharSet + NumberSet

  /** How many times a Go `for i := 0; i < n; i++` loop runs. */
  function Max0(n: int): nat
  {
    if n < 0 then 0 else n
  }

  /** Number of positions of `s` holding a character of `alphabet`. */
  function CountIn(s: string, alphabet: string): (n: nat)
    ensures n <= |s|
  {
    if |s| == 0 then 0 else (if s[0] in alphabet then 1 else 0) + CountIn(s[1..], alphabet)
  }

  /** The `n` characters that draws `from .. from + n - 1` pick from `alphabet`. */
  function Drawn(alphabet: string, draws: seq<nat>, from: nat, n: nat): (r: string)
    requires |alphabet| > 0 && from + n <= |draws|
    ensures |r| == n
    decreases n
  {
    if n == 0 then [] else Drawn(alphabet, draws, from, n - 1) + [alphabet[draws[from + n - 1] % |alphabet|]]
  }

  /** Characters the four filling loops append before the shuffle. */
  function Appended(passwdLen: int, nSpecialChar: int, nNum: int, nUpperCase: int): nat
  {
    Max0(nSpecialChar) + Max0(nNum) + Max0(nUpperCase)
      + Max0(passwdLen - nSpecialChar - nNum - nUpperCase)
  }

  /** How many characters the loops append: `passwdLen` when the minimums
      are non-negative and fit, and the sum of the minimums when they exceed
      `passwdLen` (the remainder loop then runs zero times). */
  lemma AppendedLength(passwdLen: int, nSpecialChar: int, nNum: int, nUpperCase: int)
    ensures (0 <= nSpecialChar && 0 <= nNum && 0 <= nUpperCase
             && nSpecialChar + nNum + nUpperCase <= passwdLen)
            ==> Appended(passwdLen, nSpecialChar, nNum, nUpperCase) == passwdLen
    ensures passwdLen < nSpecialChar + nNum + nUpperCase
            ==> Appended(passwdLen, nSpecialChar, nNum, nUpperCase)
                == Max0(nSpecialChar) + Max0(nNum) + Max0(nUpperCase)
  {
  }

  /** Draws one generation consumes: one per appended character, then one
      per shuffle step. */
  function DrawsNeeded(passwdLen: int, nSpecialChar: int, nNum: int, nUpperCase: int): nat
  {
    var n := Appended(passwdLen, nSpecialChar, nNum, nUpperCase);
    n + Max0(n - 1)
  }

  /** Four runs of draws one after another: `a` characters from `s1`, then
      `b` from `s2`, `c` from `s3` and `rest` from `s4`. */
  function Segments(s1: string, s2: string, s3: string, s4: string, draws: seq<nat>,
                    a: nat, b: nat, c: nat, rest: nat): (r: string)
    requires |s1| > 0 && |s2| > 0 && |s3| > 0 && |s4| > 0 && a + b + c + rest <= |draws|
    ensures |r| == a + b + c + rest
  {
    Drawn(s1, draws, 0, a) + Drawn(s2, draws, a, b) + Drawn(s3, draws, a + b, c)
      + Drawn(s4, draws, a + b + c, rest)
  }

  /** What the builder holds when the filling loops are done: the special
      characters, then the digits, then the upper-case letters, then the
      remainder drawn from the whole alphabet. */
  function Unshuffled(passwdLen: int, nSpecialChar: int, nNum: int, nUpperCase: int, draws: seq<nat>): string
    requires Appended(passwdLen, nSpecialChar, nNum, nUpperCase) <= |draws|
  {
    Segments(SpecialCharSet, NumberSet, UpperCharSet, AllCharSet, draws,
             Max0(nSpecialChar), Max0(nNum), Max0(nUpperCase),
             Max0(passwdLen - nSpecialChar - nNum - nUpperCase))
  }

  /** One pass of the Fisher-Yates shuffle from index `i` down to 1, the
      `k`-th draw choosing the partner of index `i`. */
  function FisherYates(s: seq<char>, draws: seq<nat>, k: nat, i: nat): (r: seq<char>)
    requires i < |s| && k + i <= |draws|
    ensures |r| == |s|
    decreases i
  {
    if i == 0 then s
    else
      var j := draws[k] % (i + 1);
      FisherYates(s[i := s[j]][j := s[i]], draws, k + 1, i - 1)
  }

  /** Each Fisher-Yates step swaps two positions, so the pass only permutes. */
  lemma {:induction false} FisherYatesPermutes(s: seq<char>, draws: seq<nat>, k: nat, i: nat)
    requires i < |s| && k + i <= |draws|
    ensures multiset(FisherYates(s, draws, k, i)) == multiset(s)
    decreases i
  {
    if i > 0 {
      var j := draws[k] % (i + 1);
      var swapped := s[i := s[j]][j := s[i]];
      assert multiset(swapped) == multiset(s);
      FisherYatesPermutes(swapped, draws, k + 1, i - 1);
    }
  }

  /** `rand.Shuffle` only reorders the characters. */
  lemma ShuffledPermutes(s: seq<char>, draws: seq<nat>, from: nat)
    requires from + Max0(|s| - 1) <= |draws|
    ensures multiset(Shuffled(s, draws, from)) == multiset(s)
  {
    if |s| > 0 {
      FisherYatesPermutes(s, draws, from, |s| - 1);
    }
  }

  /** The order `rand.Shuffle` leaves `s` in when its draws start at `from`. */
  function Shuffled(s: seq<char>, draws: seq<nat>, from: nat): (r: seq<char>)
    requires from + Max0(|s| - 1) <= |draws|
    ensures |r| == |s|
  {
    if |s| == 0 then s else FisherYates(s, draws, from, |s| - 1)
  }

  lemma {:induction false} CountInConcat(s: string, t: string, alphabet: string)
    ensures CountIn(s + t, alphabet) == CountIn(s, alphabet) + CountIn(t, alphabet)
  {
    if |s| == 0 {
      assert s + t == t;
    } else {
      assert (s + t)[1..] == s[1..] + t;
      CountInConcat(s[1..], t, alphabet);
    }
  }

  /** A string drawn from one alphabet counts all its characters in it. */
  lemma {:induction false} CountInOwnAlphabet(s: string, alphabet: string)
    requires forall i :: 0 <= i < |s| ==> s[i] in alphabet
    ensures CountIn(s, alphabet) == |s|
  {
    if |s| > 0 {
      CountInOwnAlphabet(s[1..], alphabet);
    }
  }

  /** Taking out position `k` lowers the count by that character's share. */
  lemma CountInRemove(t: string, k: nat, alphabet: string)
    requires k < |t|
    ensures CountIn(t, alphabet)
      == CountIn(t[..k] + t[k + 1..], alphabet) + (if t[k] in alphabet then 1 else 0)
  {
    assert t == t[..k] + ([t[k]] + t[k + 1..]);
    CountInConcat(t[..k], [t[k]] + t[k + 1..], alphabet);
    CountInConcat([t[k]], t[k + 1..], alphabet);
    CountInConcat(t[..k], t[k + 1..], alphabet);
  }

  lemma MultisetRemove(t: string, k: nat)
    requires k < |t|
    ensures multiset(t[..k] + t[k + 1..]) == multiset(t) - multiset{t[k]}
  {
    assert t == t[..k] + [t[k]] + t[k + 1..];
  }

  /** A character of the multiset of `t` sits at some position of `t`. */
  lemma PositionOf(t: string, c: char) returns (k: nat)
    requires c in multiset(t)
    ensures k < |t| && t[k] == c
  {
    k :| 0 <= k < |t| && t[k] == c;
  }

  /** Removing the same character from two reorderings leaves reorderings. */
  lemma RestPermutes(s: string, t: string, k: nat)
    requires multiset(s) == multiset(t) && s != [] && k < |t| && t[k] == s[0]
    ensures multiset(s[1..]) == multiset(t[..k] + t[k + 1..])
  {
    assert s == [s[0]] + s[1..];
    assert multiset(s[1..]) == multiset(s) - multiset{s[0]};
    MultisetRemove(t, k);
  }

  /** Class counts depend only on the multiset of characters, so no
      reordering (in particular no shuffle) changes them. */
  lemma {:induction false} CountInPermutation(s: string, t: string, alphabet: string)
    requires multiset(s) == multiset(t)
    ensures CountIn(s, alphabet) == CountIn(t, alphabet)
    decreases |s|
  {
    if s == [] {
      assert |multiset(t)| == 0;
    } else {
      assert s[0] in multiset(s);
      var k := PositionOf(t, s[0]);
      RestPermutes(s, t, k);
      CountInPermutation(s[1..], t[..k] + t[k + 1..], alphabet);
      CountInRemove(t, k, alphabet);
    }
  }

  /** The three class alphabets are parts of the full alphabet. */
  lemma ClassesInAll(c: char)
    ensures c in SpecialCharSet ==> c in AllCharSet
    ensures c in NumberSet ==> c in AllCharSet
    ensures c in UpperCharSet ==> c in AllCharSet
  {
    assert AllCharSet == LowerCharSet + UpperCharSet + SpecialCharSet + NumberSet;
  }

  /** Counting over the builder's four segments is the sum of the counts. */
  lemma CountInFour(ds: string, dn: string, du: string, dr: string, alphabet: string)
    ensures CountIn(ds + dn + du + dr, alphabet)
      == CountIn(ds, alphabet) + CountIn(dn, alphabet) + CountIn(du, alphabet) + CountIn(dr, alphabet)
  {
    CountInConcat(ds, dn, alphabet);
    CountInConcat(ds + dn, du, alphabet);
    CountInConcat(ds + dn + du, dr, alphabet);
  }

  /** The `i`-th drawn character is the one draw `from + i` picks. */
  lemma {:induction false} DrawnAt(alphabet: string, draws: seq<nat>, from: nat, n: nat)
    requires |alphabet| > 0 && from + n <= |draws|
    ensures forall i :: 0 <= i < n ==> Drawn(alphabet, draws, from, n)[i] == alphabet[draws[from + i] % |alphabet|]
    decreases n
  {
    if n > 0 {
      DrawnAt(alphabet, draws, from, n - 1);
      var r := Drawn(alphabet, draws, from, n);
      forall i | 0 <= i < n
        ensures r[i] == alphabet[draws[from + i] % |alphabet|]
      {
        if i < n - 1 {
          assert r[i] == Drawn(alphabet, draws, from, n - 1)[i];
        }
      }
    }
  }

  /** Every drawn character belongs to its alphabet. */
  lemma DrawnIn(alphabet: string, draws: seq<nat>, from: nat, n: nat)
    requires |alphabet| > 0 && from + n <= |draws|
    ensures forall i :: 0 <= i < n ==> Drawn(alphabet, draws, from, n)[i] in alphabet
  {
    DrawnAt(alphabet, draws, from, n);
  }

  /** Every character drawn from an alphabet counts in it. */
  lemma DrawnCount(alphabet: string, draws: seq<nat>, from: nat, n: nat)
    requires |alphabet| > 0 && from + n <= |draws|
    ensures CountIn(Drawn(alphabet, draws, from, n), alphabet) == n
  {
    DrawnIn(alphabet, draws, from, n);
    CountInOwnAlphabet(Drawn(alphabet, draws, from, n), alphabet);
  }

  /** Over four drawn segments, each of the first three alphabets counts at
      least as many characters as its own segment holds. */
  lemma DrawnSegmentCounts(s1: string, s2: string, s3: string, s4: string, draws: seq<nat>,
                           a: nat, b: nat, c: nat, rest: nat)
    requires |s1| > 0 && |s2| > 0 && |s3| > 0 && |s4| > 0 && a + b + c + rest <= |draws|
    ensures var u := Drawn(s1, draws, 0, a) + Drawn(s2, draws, a, b)
                     + Drawn(s3, draws, a + b, c) + Drawn(s4, draws, a + b + c, rest);
      CountIn(u, s1) >= a && CountIn(u, s2) >= b && CountIn(u, s3) >= c
  {
    var ds := Drawn(s1, draws, 0, a);
    var dn := Drawn(s2, draws, a, b);
    var du := Drawn(s3, draws, a + b, c);
    var dr := Drawn(s4, draws, a + b + c, rest);
    assert CountIn(ds + dn + du + dr, s1) >= a by {
      DrawnCount(s1, draws, 0, a);
      CountInFour(ds, dn, du, dr, s1);
    }
    assert CountIn(ds + dn + du + dr, s2) >= b by {
      DrawnCount(s2, draws, a, b);
      CountInFour(ds, dn, du, dr, s2);
    }
    assert CountIn(ds + dn + du + dr, s3) >= c by {
      DrawnCount(s3, draws, a + b, c);
      CountInFour(ds, dn, du, dr, s3);
    }
  }

  /** In four runs of draws, each of the first three alphabets counts at
      least as many characters as its own run holds. */
  lemma SegmentsCounts(s1: string, s2: string, s3: string, s4: string, draws: seq<nat>,
                       a: nat, b: nat, c: nat, rest: nat)
    requires |s1| > 0 && |s2| > 0 && |s3| > 0 && |s4| > 0 && a + b + c + rest <= |draws|
    ensures var u := Segments(s1, s2, s3, s4, draws, a, b, c, rest);
      CountIn(u, s1) >= a && CountIn(u, s2) >= b && CountIn(u, s3) >= c
  {
    DrawnSegmentCounts(s1, s2, s3, s4, draws, a, b, c, rest);
  }

  /** Before the shuffle, each class reaches its minimum. */
  lemma UnshuffledCounts(passwdLen: int, nSpecialChar: int, nNum: int, nUpperCase: int, draws: seq<nat>)
    requires Appended(passwdLen, nSpecialChar, nNum, nUpperCase) <= |draws|
    ensures var s := Unshuffled(passwdLen, nSpecialChar, nNum, nUpperCase, draws);
      && CountIn(s, SpecialCharSet) >= nSpecialChar
      && CountIn(s, NumberSet) >= nNum
      && CountIn(s, UpperCharSet) >= nUpperCase
  {
    SegmentsCounts(SpecialCharSet, NumberSet, UpperCharSet, AllCharSet, draws,
                       Max0(nSpecialChar), Max0(nNum), Max0(nUpperCase),
                       Max0(passwdLen - nSpecialChar - nNum - nUpperCase));
  }

  /** Four runs of draws whose alphabets all lie within `all` hold only
      characters of `all`. */
  lemma SegmentsIn(s1: string, s2: string, s3: string, all: string, draws: seq<nat>,
                   a: nat, b: nat, c: nat, rest: nat)
    requires |s1| > 0 && |s2| > 0 && |s3| > 0 && |all| > 0 && a + b + c + rest <= |draws|
    requires forall x :: x in s1 ==> x in all
    requires forall x :: x in s2 ==> x in all
    requires forall x :: x in s3 ==> x in all
    ensures var u := Segments(s1, s2, s3, all, draws, a, b, c, rest);
      forall i :: 0 <= i < |u| ==> u[i] in all
  {
    var ds := Drawn(s1, draws, 0, a);
    var dn := Drawn(s2, draws, a, b);
    var du := Drawn(s3, draws, a + b, c);
    var dr := Drawn(all, draws, a + b + c, rest);
    DrawnIn(s1, draws, 0, a);
    DrawnIn(s2, draws, a, b);
    DrawnIn(s3, draws, a + b, c);
    DrawnIn(all, draws, a + b + c, rest);
    var u := Segments(s1, s2, s3, all, draws, a, b, c, rest);
    assert u == ds + dn + du + dr;
    forall i | 0 <= i < |u|
      ensures u[i] in all
    {
      if i < a {
        assert u[i] == ds[i];
      } else if i < a + b {
        assert u[i] == dn[i - a];
      } else if i < a + b + c {
        assert u[i] == du[i - a - b];
      } else {
        assert u[i] == dr[i - a - b - c];
      }
    }
  }

  /** Before the shuffle, every character comes from the full alphabet. */
  lemma UnshuffledAlphabet(passwdLen: int, nSpecialChar: int, nNum: int, nUpperCase: int, draws: seq<nat>)
    requires Appended(passwdLen, nSpecialChar, nNum, nUpperCase) <= |draws|
    ensures var s := Unshuffled(passwdLen, nSpecialChar, nNum, nUpperCase, draws);
      && |s| == Appended(passwdLen, nSpecialChar, nNum, nUpperCase)
      && forall i :: 0 <= i < |s| ==> s[i] in AllCharSet
  {
    var a, b, c := Max0(nSpecialChar), Max0(nNum), Max0(nUpperCase);
    var rest := Max0(passwdLen - nSpecialChar - nNum - nUpperCase);
    forall x | x in SpecialCharSet || x in NumberSet || x in UpperCharSet
      ensures x in AllCharSet
    {
      ClassesInAll(x);
    }
    SegmentsIn(SpecialCharSet, NumberSet, UpperCharSet, AllCharSet, draws, a, b, c, rest);
  }

  /** A reordering keeps the length, the count of every class and the
      alphabet the characters come from. */
  lemma ReorderedShape(builder: string, password: string)
    requires multiset(password) == multiset(builder)
    requires forall i :: 0 <= i < |builder| ==> builder[i] in AllCharSet
    ensures |password| == |builder|
    ensures CountIn(password, SpecialCharSet) == CountIn(builder, SpecialCharSet)
    ensures CountIn(password, NumberSet) == CountIn(builder, NumberSet)
    ensures CountIn(password, UpperCharSet) == CountIn(builder, UpperCharSet)
    ensures forall i :: 0 <= i < |password| ==> password[i] in AllCharSet
  {
    assert |password| == |multiset(password)| == |builder|;
    CountInPermutation(builder, password, SpecialCharSet);
    CountInPermutation(builder, password, NumberSet);
    CountInPermutation(builder, password, UpperCharSet);
    forall i | 0 <= i < |password|
      ensures password[i] in AllCharSet
    {
      assert password[i] in multiset(builder);
    }
  }

  /** One filling loop: appends `n` characters drawn from `alphabet`
      (none when `n` is not positive) and reports where the draws stopped. */
  method WriteRandom(prefix: string, alphabet: string, n: int, draws: seq<nat>, from: nat)
    returns (s: string, next: nat)
    requires |alphabet| > 0 && from + Max0(n) <= |draws|
    ensures next == from + Max0(n)
    ensures s == prefix + Drawn(alphabet, draws, from, Max0(n))
  {
    s, next := prefix, from;
    var i := 0;
    while i < n
      invariant 0 <= i <= Max0(n)
      invariant next == from + i
      invariant s == prefix + Drawn(alphabet, draws, from, i)
    {
      var random := draws[next] % |alphabet|;
      assert Drawn(alphabet, draws, from, i + 1) == Drawn(alphabet, draws, from, i) + [alphabet[random]];
      s := s + [alphabet[random]];
      next := next + 1;
      i := i + 1;
    }
  }

  /** `rand.Shuffle` over a rune slice, swapping in place. */
  method Shuffle(a: array<char>, draws: seq<nat>, from: nat)
    requires from + Max0(a.Length - 1) <= |draws|
    modifies a
    ensures a[..] == Shuffled(old(a[..]), draws, from)
    ensures multiset(a[..]) == multiset(old(a[..]))
  {
    if a.Length == 0 {
      return;
    }
    ghost var target := Shuffled(a[..], draws, from);
    FisherYatesPermutes(a[..], draws, from, a.Length - 1);
    var i := a.Length - 1;
    var k := from;
    while i > 0
      invariant 0 <= i < a.Length
      invariant k + i == from + a.Length - 1
      invariant FisherYates(a[..], draws, k, i) == target
    {
      var j := draws[k] % (i + 1);
      ghost var before := a[..];
      var tmp := a[i];
      a[i] := a[j];
      a[j] := tmp;
      assert a[..] == before[i := before[j]][j := before[i]];
      i := i - 1;
      k := k + 1;
    }
  }

  /** The four filling loops of generatePassword, writing into one builder:
      `nSpecialChar` characters from `special`, `nNum` from `numbers`,
      `nUpperCase` from `upper`, then the remainder from `all`. */
  method Fill(special: string, numbers: string, upper: string, all: string,
              passwdLen: int, nSpecialChar: int, nNum: int, nUpperCase: int, draws: seq<nat>)
    returns (builder: string, next: nat)
    requires |special| > 0 && |numbers| > 0 && |upper| > 0 && |all| > 0
    requires Appended(passwdLen, nSpecialChar, nNum, nUpperCase) <= |draws|
    ensures next == Appended(passwdLen, nSpecialChar, nNum, nUpperCase)
    ensures builder == Segments(special, numbers, upper, all, draws,
                                Max0(nSpecialChar), Max0(nNum), Max0(nUpperCase),
                                Max0(passwdLen - nSpecialChar - nNum - nUpperCase))
  {
    ghost var ds := Drawn(special, draws, 0, Max0(nSpecialChar));
    builder, next := WriteRandom([], special, nSpecialChar, draws, 0);
    assert builder == ds by {
      assert [] + ds == ds;
    }
    builder, next := WriteRandom(builder, numbers, nNum, draws, next);
    builder, next := WriteRandom(builder, upper, nUpperCase, draws, next);
    var remainingLength := passwdLen - nSpecialChar - nNum - nUpperCase;
    builder, next := WriteRandom(builder, all, remainingLength, draws, next);
  }

  /** The password one generation yields from the draws `draws`. */
  function Generated(passwdLen: int, nSpecialChar: int, nNum: int, nUpperCase: int, draws: seq<nat>): (r: string)
    requires DrawsNeeded(passwdLen, nSpecialChar, nNum, nUpperCase) <= |draws|
    ensures |r| == Appended(passwdLen, nSpecialChar, nNum, nUpperCase)
  {
    Shuffled(Unshuffled(passwdLen, nSpecialChar, nNum, nUpperCase, draws), draws,
             Appended(passwdLen, nSpecialChar, nNum, nUpperCase))
  }

  /** What every generated password satisfies, whatever the draws: its
      length, the class minimums, the alphabet, and the characters of the
      filled builder in some order. */
  lemma GeneratedShape(passwdLen: int, nSpecialChar: int, nNum: int, nUpperCase: int, draws: seq<nat>,
                       password: string)
    requires DrawsNeeded(passwdLen, nSpecialChar, nNum, nUpperCase) <= |draws|
    requires password == Generated(passwdLen, nSpecialChar, nNum, nUpperCase, draws)
    ensures |password| == Appended(passwdLen, nSpecialChar, nNum, nUpperCase)
    ensures (0 <= nSpecialChar && 0 <= nNum && 0 <= nUpperCase
             && nSpecialChar + nNum + nUpperCase <= passwdLen) ==> |password| == passwdLen
    ensures passwdLen < nSpecialChar + nNum + nUpperCase
            ==> |password| == Max0(nSpecialChar) + Max0(nNum) + Max0(nUpperCase)
    ensures CountIn(password, SpecialCharSet) >= nSpecialChar
    ensures CountIn(password, NumberSet) >= nNum
    ensures CountIn(password, UpperCharSet) >= nUpperCase
    ensures forall i :: 0 <= i < |password| ==> password[i] in AllCharSet
    ensures multiset(password) == multiset(Unshuffled(passwdLen, nSpecialChar, nNum, nUpperCase, draws))
  {
    var builder := Unshuffled(passwdLen, nSpecialChar, nNum, nUpperCase, draws);
    ShuffledPermutes(builder, draws, Appended(passwdLen, nSpecialChar, nNum, nUpperCase));
    UnshuffledCounts(passwdLen, nSpecialChar, nNum, nUpperCase, draws);
    UnshuffledAlphabet(passwdLen, nSpecialChar, nNum, nUpperCase, draws);
    ReorderedShape(builder, password);
    AppendedLength(passwdLen, nSpecialChar, nNum, nUpperCase);
  }

  /** generatePassword: the minimum counts of special characters, digits and
      upper-case letters, then the remainder from the full alphabet, then a
      shuffle. When the minimums exceed `passwdLen` the remainder loop runs
      zero times and no error is raised. */
  method GeneratePassword(passwdLen: int, nSpecialChar: int, nNum: int, nUpperCase: int, draws: seq<nat>)
    returns (password: string)
    requires DrawsNeeded(passwdLen, nSpecialChar, nNum, nUpperCase) <= |draws|
    ensures |password| == Appended(passwdLen, nSpecialChar, nNum, nUpperCase)
    ensures (0 <= nSpecialChar && 0 <= nNum && 0 <= nUpperCase
             && nSpecialChar + nNum + nUpperCase <= passwdLen) ==> |password| == passwdLen
    ensures passwdLen < nSpecialChar + nNum + nUpperCase
            ==> |password| == Max0(nSpecialChar) + Max0(nNum) + Max0(nUpperCase)
    ensures CountIn(password, SpecialCharSet) >= nSpecialChar
    ensures CountIn(password, NumberSet) >= nNum
    ensures CountIn(password, UpperCharSet) >= nUpperCase
    ensures forall i :: 0 <= i < |password| ==> password[i] in AllCharSet
    ensures multiset(password) == multiset(Unshuffled(passwdLen, nSpecialChar, nNum, nUpperCase, draws))
    ensures password == Generated(passwdLen, nSpecialChar, nNum, nUpperCase, draws)
  {
    var builder, next := Fill(SpecialCharSet, NumberSet, UpperCharSet, AllCharSet,
                              passwdLen, nSpecialChar, nNum, nUpperCase, draws);
    var inRune := new char[|builder|](i requires 0 <= i < |builder| => builder[i]);
    assert inRune[..] == builder;
    Shuffle(inRune, draws, next);
    password := inRune[..];
    GeneratedShape(passwdLen, nSpecialChar, nNum, nUpperCase, draws, password);
  }

}
