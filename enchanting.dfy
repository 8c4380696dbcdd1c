/** The values both versions of the enchanting rule work on, and the
    filter-and-pick step they share: keep the table entries whose prefix
    differs from the weapon's current one, then take the entry at index
    floor(draw * count). */
module Enchanting {

  datatype Option<+T> = None | Some(value: T)

  /** A modifier with a display prefix and a descriptive attribute. */
  datatype Enchantment = Enchantment(prefix: string, attribute: string)

  /** The state of a weapon object's `enchantment` property: no such key,
      a key holding `undefined`, or a key holding an enchantment. */
  datatype Slot = Absent | Undefined | Holds(value: Enchantment)

  /** A weapon: every property other than `enchantment` is kept in `rest`,
      whose type is a parameter because the rule never looks inside it. */
  datatype Weapon<R> = Weapon(rest: R, enchantment: Slot)

  /** A value of `Math.random()`: a real in [0, 1). */
  type Draw = r: real | 0.0 <= r < 1.0

  /** `weapon.enchantment?.prefix`, with `undefined` as None. */
  function CurrentPrefix<R>(weapon: Weapon<R>): Option<string>
  {
    if weapon.enchantment.Holds? then Some(weapon.enchantment.value.prefix) else None
  }

  /** The filter's test `prefix !== weapon.enchantment?.prefix`: a string
      prefix is never strictly equal to `undefined`. */
  predicate Admits(e: Enchantment, current: Option<string>)
  {
    current.None? || e.prefix != current.value
  }

  /** Some table entry passes the filter. */
  predicate HasCandidate(table: seq<Enchantment>, current: Option<string>)
  {
    exists e :: e in table && Admits(e, current)
  }

  /** Some two table entries carry different prefixes. */
  predicate HasTwoPrefixes(table: seq<Enchantment>)
  {
    exists a, b :: a in table && b in table && a.prefix != b.prefix
  }

  /** The candidate list: the table entries, in table order, that the
      filter keeps. */
  function Available(table: seq<Enchantment>, current: Option<string>): (r: seq<Enchantment>)
    ensures |r| <= |table|
    ensures forall e :: e in r <==> e in table && Admits(e, current)
    ensures current.None? ==> r == table
  {
    if table == [] then []
    else if Admits(table[0], current) then [table[0]] + Available(table[1..], current)
    else Available(table[1..], current)
  }

  /** `Math.floor(draw * n)`. */
  function PickIndex(draw: Draw, n: nat): (i: int)
    ensures n > 0 ==> 0 <= i < n
    ensures n == 0 ==> i == 0
  {
    (draw * n as real).Floor
  }

  /** `s[i]` on a JavaScript array: `undefined` outside the bounds. */
  function ElementAt(s: seq<Enchantment>, i: int): (r: Slot)
    ensures r != Absent
    ensures r.Holds? <==> 0 <= i < |s|
    ensures r.Holds? ==> r.value == s[i]
  {
    if 0 <= i < |s| then Holds(s[i]) else Undefined
  }

  /** The non-loss path of `enchant`: a copy of the weapon whose
      `enchantment` property is set to the picked candidate. */
  function EnchantFromTable<R>(table: seq<Enchantment>, weapon: Weapon<R>, draw: Draw): (r: Weapon<R>)
    ensures r.rest == weapon.rest
    ensures r.enchantment != Absent
    ensures r.enchantment.Holds? <==> HasCandidate(table, CurrentPrefix(weapon))
    ensures r.enchantment.Holds? ==>
      r.enchantment.value in table && Admits(r.enchantment.value, CurrentPrefix(weapon))
  {
    var available := Available(table, CurrentPrefix(weapon));
    AvailableEmpty(table, CurrentPrefix(weapon));
    weapon.(enchantment := ElementAt(available, PickIndex(draw, |available|)))
  }

  /** Filtering a concatenation filters each part: the candidate list
      keeps the table's order. */
  lemma {:induction false} AvailableAppend(a: seq<Enchantment>, b: seq<Enchantment>, current: Option<string>)
    ensures Available(a + b, current) == Available(a, current) + Available(b, current)
  {
    if a == [] {
      assert a + b == b;
    } else {
      assert (a + b)[0] == a[0];
      assert (a + b)[1..] == a[1..] + b;
      AvailableAppend(a[1..], b, current);
    }
  }

  /** Each entry occurs in the candidate list as often as in the table
      when the filter keeps it, and not at all otherwise. */
  lemma {:induction false} AvailableCount(table: seq<Enchantment>, current: Option<string>, e: Enchantment)
    ensures multiset(Available(table, current))[e] ==
      if Admits(e, current) then multiset(table)[e] else 0
  {
    if table != [] {
      assert table == [table[0]] + table[1..];
      AvailableCount(table[1..], current, e);
    }
  }

  /** The candidate list is empty exactly when no table entry passes the
      filter. */
  lemma AvailableEmpty(table: seq<Enchantment>, current: Option<string>)
    ensures Available(table, current) == [] <==> !HasCandidate(table, current)
  {
    if HasCandidate(table, current) {
      var e :| e in table && Admits(e, current);
      assert e in Available(table, current);
    }
  }

  /** Dividing by a positive n moves it across a comparison. */
  lemma DivBelow(a: real, d: real, n: real)
    requires n > 0.0
    ensures a / n <= d <==> a <= d * n
  {
    assert a == (a / n) * n;
  }

  /** The draw picks index i exactly when it lies in [i/n, (i+1)/n): every
      candidate gets an interval of draws of the same width 1/n. */
  lemma PickIndexInterval(draw: Draw, n: nat, i: int)
    requires n > 0
    ensures PickIndex(draw, n) == i <==> i as real / n as real <= draw < (i + 1) as real / n as real
  {
    DivBelow(i as real, draw, n as real);
    DivBelow((i + 1) as real, draw, n as real);
  }

  /** Every candidate can be picked: the draw i/n picks index i. */
  lemma PickIndexReaches(n: nat, i: nat)
    requires i < n
    ensures 0.0 <= i as real / n as real < 1.0
    ensures PickIndex(i as real / n as real, n) == i
  {
    var d: Draw := i as real / n as real;
    PickIndexInterval(d, n, i);
  }

  /** Every candidate is the outcome of some draw. */
  lemma EnchantFromTableReaches<R>(table: seq<Enchantment>, weapon: Weapon<R>, e: Enchantment)
    requires e in table && Admits(e, CurrentPrefix(weapon))
    ensures exists draw: Draw :: EnchantFromTable(table, weapon, draw) == weapon.(enchantment := Holds(e))
  {
    var available := Available(table, CurrentPrefix(weapon));
    assert e in available;
    var i :| 0 <= i < |available| && available[i] == e;
    PickIndexReaches(|available|, i);
    var d: Draw := i as real / |available| as real;
    assert EnchantFromTable(table, weapon, d) == weapon.(enchantment := Holds(e));
  }

  /** With two different prefixes in the table there is always a
      candidate, whatever the weapon carries. */
  lemma TwoPrefixesGiveCandidate(table: seq<Enchantment>, current: Option<string>)
    requires HasTwoPrefixes(table)
    ensures HasCandidate(table, current)
  {
    var a, b :| a in table && b in table && a.prefix != b.prefix;
    if !Admits(a, current) {
      assert Admits(b, current);
    }
  }

  /** An enchanted weapon, re-enchanted from a table with two different
      prefixes, ends up with an enchantment of another prefix. */
  lemma EnchantFromTableExcludesCurrent<R>(table: seq<Enchantment>, weapon: Weapon<R>, draw: Draw)
    requires weapon.enchantment.Holds?
    requires HasTwoPrefixes(table)
    ensures EnchantFromTable(table, weapon, draw).enchantment.Holds?
    ensures EnchantFromTable(table, weapon, draw).enchantment.value.prefix != weapon.enchantment.value.prefix
  {
    TwoPrefixesGiveCandidate(table, CurrentPrefix(weapon));
  }
}
