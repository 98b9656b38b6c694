/**
 The ids of the sections in a directory.  Every section is a file named by its id in
 decimal.  A start lists the names in string order and goes on counting after the last
 one.
 */
module Listing {
  /** The decimal digits of a number, most significant first. */
  function Name(n: nat): (r: string)
    ensures r != []
  {
    if n < 10 then [Digit(n)] else Name(n / 10) + [Digit(n % 10)]
  }

  function Digit(d: nat): char
    requires d < 10
  {
    '0' + d as char
  }

  /** strcmp(a, b) <= 0 */
  predicate Leq(a: string, b: string)
  {
    a == [] || (b != [] && (a[0] < b[0] || (a[0] == b[0] && Leq(a[1..], b[1..]))))
  }

  /** What strtoull makes of a name. */
  function Value(name: string): nat
    requires forall i | 0 <= i < |name| :: '0' <= name[i] <= '9'
  {
    if name == [] then 0
    else Value(name[..|name| - 1]) * 10 + (name[|name| - 1] as int - '0' as int)
  }

  lemma {:induction false} NameValue(n: nat)
    ensures forall i | 0 <= i < |Name(n)| :: '0' <= Name(n)[i] <= '9'
    ensures Value(Name(n)) == n
  {
    var name := Name(n);
    var k := |name| - 1;
    if n >= 10 {
      NameValue(n / 10);
      assert name[..k] == Name(n / 10);
    } else {
      assert name[..0] == [] && Value([]) == 0;
    }
  }

  // ---- string order ----

  lemma LeqSelf(a: string)
    ensures Leq(a, a)
  {
  }

  lemma {:induction false} LeqTotal(a: string, b: string)
    ensures Leq(a, b) || Leq(b, a)
    ensures Leq(a, b) && Leq(b, a) ==> a == b
  {
    if a != [] && b != [] && a[0] == b[0] {
      LeqTotal(a[1..], b[1..]);
      assert a == [a[0]] + a[1..] && b == [b[0]] + b[1..];
    }
  }

  lemma {:induction false} LeqTrans(a: string, b: string, c: string)
    requires Leq(a, b) && Leq(b, c)
    ensures Leq(a, c)
  {
    if a != [] && a[0] == b[0] && b[0] == c[0] {
      LeqTrans(a[1..], b[1..], c[1..]);
    }
  }

  /** A last character decides only between strings of the same length. */
  lemma {:induction false} LeqShorter(a: string, b: string, x: char)
    requires |a| <= |b|
    ensures Leq(a, b + [x]) <==> Leq(a, b)
  {
    if a != [] {
      assert (b + [x])[1..] == b[1..] + [x];
      LeqShorter(a[1..], b[1..], x);
    }
  }

  lemma {:induction false} LeqSame(a: string, x: char, b: string, y: char)
    requires |a| == |b|
    ensures Leq(a + [x], b + [y]) <==> if a == b then x <= y else Leq(a, b)
  {
    if a == [] {
      assert (a + [x])[1..] == [] && Leq([], []);
    } else {
      assert (a + [x])[1..] == a[1..] + [x] && (b + [y])[1..] == b[1..] + [y];
      LeqSame(a[1..], x, b[1..], y);
      assert a == [a[0]] + a[1..] && b == [b[0]] + b[1..];
    }
  }

  // ---- names of numbers ----

  function Pow10(k: nat): (r: nat)
    ensures r > 0
  {
    if k == 0 then 1 else Pow10(k - 1) * 10
  }

  /** The number with zeroes appended until its name is k characters long. */
  function Padded(n: nat, k: nat): nat
    decreases k - |Name(n)|
  {
    if |Name(n)| >= k then n else Padded(n, k - 1) * 10
  }

  lemma {:induction false} Lengths(n: nat)
    ensures n < Pow10(|Name(n)|)
    ensures n > 0 ==> Pow10(|Name(n)| - 1) <= n
  {
    if n >= 10 {
      Lengths(n / 10);
    } else {
      assert Pow10(0) == 1 && Pow10(1) == 10;
    }
  }

  lemma {:induction false} NamesDiffer(a: nat, b: nat)
    requires Name(a) == Name(b)
    ensures a == b
  {
    NameValue(a);
    NameValue(b);
  }

  lemma {:induction false} Longer(a: nat, b: nat)
    requires a <= b
    ensures |Name(a)| <= |Name(b)|
  {
    if b >= 10 && a >= 10 {
      Longer(a / 10, b / 10);
    }
  }

  /** In string order one name comes before a longer one exactly if the number, padded
      with zeroes to that length, is not the greater one. */
  lemma {:induction false} StringOrder(a: nat, b: nat)
    requires |Name(a)| <= |Name(b)|
    ensures Leq(Name(a), Name(b)) <==> Padded(a, |Name(b)|) <= b
  {
    if |Name(a)| < |Name(b)| {
      LeqShorter(Name(a), Name(b / 10), Digit(b % 10));
      StringOrder(a, b / 10);
    } else if b >= 10 {
      StringOrder(a / 10, b / 10);
      LeqSame(Name(a / 10), Digit(a % 10), Name(b / 10), Digit(b % 10));
      if Name(a / 10) == Name(b / 10) {
        NamesDiffer(a / 10, b / 10);
      }
    } else {
      assert Leq([], []);
    }
  }

  // ---- the last name ----

  /** The last of the names in string order. */
  predicate IsLast(ids: set<nat>, last: nat)
  {
    last in ids && forall id | id in ids :: Leq(Name(id), Name(last))
  }

  /** A directory listing, sorted as strings, ends with it. */
  lemma {:induction false} SortedEnds(names: seq<nat>)
    requires names != [] && forall i | 0 <= i < |names| - 1 :: Leq(Name(names[i]), Name(names[i + 1]))
    ensures IsLast((set id | id in names), names[|names| - 1])
  {
    var n := |names| - 1;
    LeqSelf(Name(names[n]));
    if n > 0 {
      var rest := names[..n];
      assert rest[n - 1] == names[n - 1];
      SortedEnds(rest);
      forall id | id in names
        ensures Leq(Name(id), Name(names[n]))
      {
        if id != names[n] {
          assert id in rest;
          LeqTrans(Name(id), Name(names[n - 1]), Name(names[n]));
        }
      }
    }
  }

  /** The last of a part and one more name. */
  lemma {:induction false} LastMore(ids: set<nat>, last: nat, id: nat)
    requires IsLast(ids, last)
    ensures IsLast(ids + {id}, if Leq(Name(last), Name(id)) then id else last)
  {
    LeqSelf(Name(id));
    LeqTotal(Name(last), Name(id));
    if Leq(Name(last), Name(id)) {
      forall x | x in ids
        ensures Leq(Name(x), Name(id))
      {
        LeqTrans(Name(x), Name(last), Name(id));
      }
    }
  }

  lemma {:induction false} LastExists(ids: set<nat>)
    requires ids != {}
    ensures exists last :: IsLast(ids, last)
    decreases ids
  {
    var id :| id in ids;
    var rest := ids - {id};
    if rest == {} {
      LeqSelf(Name(id));
      assert ids == {id};
      assert IsLast(ids, id);
    } else {
      LastExists(rest);
      var last :| IsLast(rest, last);
      LastMore(rest, last, id);
      assert ids == rest + {id};
    }
  }

  lemma LastOnce(ids: set<nat>, a: nat, b: nat)
    requires IsLast(ids, a) && IsLast(ids, b)
    ensures a == b
  {
    LeqTotal(Name(a), Name(b));
    NamesDiffer(a, b);
  }

  /** The id a start goes on with. */
  ghost function NextId(ids: set<nat>): (n: nat)
    ensures ids == {} ==> n == 0
    ensures forall last: nat | IsLast(ids, last) :: n == last + 1
  {
    if ids == {} then 0
    else
      LastExists(ids);
      var last: nat :| IsLast(ids, last);
      assert forall x: nat | IsLast(ids, x) :: x == last by {
        forall x: nat | IsLast(ids, x)
          ensures x == last
        {
          LastOnce(ids, x, last);
        }
      }
      last + 1
  }

  /** Search for the last name. */
  method FindNext(ids: set<nat>) returns (n: nat)
    ensures n == NextId(ids)
  {
    if ids == {} {
      return 0;
    }
    var last :| last in ids;
    var todo := ids - {last};
    ghost var seen := {last};
    LeqSelf(Name(last));
    while todo != {}
      invariant IsLast(seen, last) && seen + todo == ids
      decreases todo
    {
      var id :| id in todo;
      LastMore(seen, last, id);
      if Leq(Name(last), Name(id)) {
        last := id;
      }
      seen := seen + {id};
      todo := todo - {id};
    }
    assert seen == ids;
    n := last + 1;
  }

  // ---- when the next id is unused ----

  /** The greatest id in use is listed, and no listed id exceeds it when both are padded
      to the same length. */
  ghost predicate Greatest(listed: set<nat>, used: set<nat>, g: nat)
  {
    && g in listed && (forall id | id in used :: id <= g)
    && forall id | id in listed :: Padded(id, |Name(g)|) <= g
  }

  /** The next id and those after it are unused, if and only if the greatest id in use is
      the last name in string order. */
  lemma {:induction false} NextUnused(listed: set<nat>, used: set<nat>)
    requires listed <= used
    ensures (forall id | id in used :: id < NextId(listed)) <==>
            (used == {} || exists g :: Greatest(listed, used, g))
  {
    if g :| Greatest(listed, used, g) {
      forall id | id in listed
        ensures Leq(Name(id), Name(g))
      {
        Longer(id, g);
        StringOrder(id, g);
      }
      assert IsLast(listed, g);
    }
    if used != {} && forall id | id in used :: id < NextId(listed) {
      assert listed != {} by {
        var id :| id in used;
      }
      LastExists(listed);
      var last :| IsLast(listed, last);
      forall id | id in listed
        ensures Padded(id, |Name(last)|) <= last
      {
        Longer(id, last);
        StringOrder(id, last);
      }
      assert Greatest(listed, used, last);
    }
  }

  lemma {:induction false} PaddedBelow(n: nat, k: nat)
    requires |Name(n)| < k
    ensures Padded(n, k) + 10 <= Pow10(k)
  {
    Lengths(n);
    if |Name(n)| < k - 1 {
      PaddedBelow(n, k - 1);
    }
  }

  /** A number of nines. */
  lemma {:induction false} Nines(k: nat)
    requires k > 0
    ensures |Name(Pow10(k) - 1)| == k
  {
    if k > 1 {
      Nines(k - 1);
      var n := Pow10(k) - 1;
      assert n / 10 == Pow10(k - 1) - 1;
    }
  }

  /** The first m + 1 ids. */
  function Upto(m: nat): (r: set<nat>)
    ensures forall id: nat :: id in r <==> id <= m
  {
    if m == 0 then {0} else Upto(m - 1) + {m}
  }

  /** With sections 0 to m the next id is m + 1, if and only if m is one of the last ten
      numbers of its length. */
  lemma {:induction false} NextAfter(m: nat)
    ensures NextId(Upto(m)) == m + 1 <==> m + 10 >= Pow10(|Name(m)|)
  {
    var ids := Upto(m);
    var k := |Name(m)|;
    if m + 10 >= Pow10(k) {
      forall id | id in ids
        ensures Padded(id, k) <= m
      {
        Longer(id, m);
        if |Name(id)| < k {
          PaddedBelow(id, k);
        }
      }
      NextUnused(ids, ids);
      assert Greatest(ids, ids, m);
      assert m < NextId(ids);
      LastExists(ids);
      var last :| IsLast(ids, last);
    } else {
      assert k > 1 by {
        assert Pow10(1) == 10;
      }
      Nines(k - 1);
      Lengths(m);
      var nines := Pow10(k - 1) - 1;
      StringOrder(nines, m);
      assert Padded(nines, k) == nines * 10;
      assert nines in ids && !Leq(Name(nines), Name(m));
      LastExists(ids);
      var last :| IsLast(ids, last);
    }
  }

  /** Eleven sections: the last name is 9, and the next id is in use. */
  lemma {:induction false} ElevenSections()
    ensures NextId(Upto(10)) == 10
  {
    var ids := Upto(10);
    assert Name(10) == Name(1) + [Digit(0)] == "10";
    assert Name(9) == "9" && Leq("1", "9");
    assert Leq("10", "9");
    forall id | id in ids
      ensures Leq(Name(id), Name(9))
    {
    }
    assert IsLast(ids, 9);
  }
}
