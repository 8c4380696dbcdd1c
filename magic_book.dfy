/** The final version of the rule: a magic book holding a table and a loss
    probability. Each enchant first draws for loss, which strips the
    weapon's enchantment; otherwise it re-enchants from the table. */
module MagicBooks {
  import opened Enchanting
  import EnchantingTests

  /** The loss probability a book gets when none is supplied. */
  const DefaultEnchantmentLossProbability: real := 0.1

  /** A book's configuration, fixed when it is made. */
  datatype MagicBook = MagicBook(enchantments: seq<Enchantment>, enchantmentLossProbability: real)

  /** The constructor: a supplied loss probability is kept as given (even
      0, since `??` only replaces a missing value); a missing one becomes
      the default. */
  function New(enchantments: seq<Enchantment>, enchantmentLossProbability: Option<real>): (book: MagicBook)
    ensures book.enchantments == enchantments
    ensures enchantmentLossProbability.Some? ==>
      book.enchantmentLossProbability == enchantmentLossProbability.value
    ensures enchantmentLossProbability.None? ==> book.enchantmentLossProbability == 0.1
  {
    var p := if enchantmentLossProbability.Some? then enchantmentLossProbability.value
             else DefaultEnchantmentLossProbability;
    MagicBook(enchantments, p)
  }

  /** The loss draw: the enchantment is lost when the draw falls below the
      loss probability. A probability of at most 0 never fires and one of at
      least 1 always fires. */
  function ShouldLoseEnchantment(book: MagicBook, draw: Draw): (lose: bool)
    ensures book.enchantmentLossProbability <= 0.0 ==> !lose
    ensures book.enchantmentLossProbability >= 1.0 ==> lose
  {
    draw < book.enchantmentLossProbability
  }

  /** `enchant(weapon)`, with the two random draws as arguments; the pick
      draw is used only when the loss draw does not fire. */
  function Enchant<R>(book: MagicBook, weapon: Weapon<R>, lossDraw: Draw, pickDraw: Draw): (r: Weapon<R>)
    ensures r.rest == weapon.rest
    ensures r.enchantment == Absent <==> lossDraw < book.enchantmentLossProbability
    ensures r.enchantment == Undefined <==>
      !(lossDraw < book.enchantmentLossProbability) && !HasCandidate(book.enchantments, CurrentPrefix(weapon))
    ensures r.enchantment.Holds? ==>
      r.enchantment.value in book.enchantments && Admits(r.enchantment.value, CurrentPrefix(weapon))
  {
    if ShouldLoseEnchantment(book, lossDraw) then
      weapon.(enchantment := Absent)
    else
      EnchantFromTable(book.enchantments, weapon, pickDraw)
  }

  /** When the loss draw does not fire, the book enchants exactly as the
      earlier curried `enchant` does with the book's table. */
  lemma NoLossAgreesWithCurriedEnchant<R(!new)>(book: MagicBook, weapon: Weapon<R>, lossDraw: Draw, pickDraw: Draw)
    requires !ShouldLoseEnchantment(book, lossDraw)
    ensures Enchant(book, weapon, lossDraw, pickDraw) == EnchantingTests.Enchant(book.enchantments)(weapon, pickDraw)
  {
  }

  /** A book with loss probability 1 or more strips every weapon. */
  lemma CertainLoss<R>(book: MagicBook, weapon: Weapon<R>, lossDraw: Draw, pickDraw: Draw)
    requires book.enchantmentLossProbability >= 1.0
    ensures Enchant(book, weapon, lossDraw, pickDraw) == weapon.(enchantment := Absent)
  {
  }

  /** A book with loss probability 0 or less always enchants when the table
      has a candidate. */
  lemma NeverLost<R>(book: MagicBook, weapon: Weapon<R>, lossDraw: Draw, pickDraw: Draw)
    requires book.enchantmentLossProbability <= 0.0
    requires HasCandidate(book.enchantments, CurrentPrefix(weapon))
    ensures Enchant(book, weapon, lossDraw, pickDraw).enchantment.Holds?
  {
  }

  /** With no loss, an enchanted weapon and a table of at least two
      prefixes, the new enchantment carries another prefix. */
  lemma ExcludesCurrentPrefix<R>(book: MagicBook, weapon: Weapon<R>, lossDraw: Draw, pickDraw: Draw)
    requires !ShouldLoseEnchantment(book, lossDraw)
    requires weapon.enchantment.Holds?
    requires HasTwoPrefixes(book.enchantments)
    ensures Enchant(book, weapon, lossDraw, pickDraw).enchantment.Holds?
    ensures Enchant(book, weapon, lossDraw, pickDraw).enchantment.value.prefix != weapon.enchantment.value.prefix
  {
    EnchantFromTableExcludesCurrent(book.enchantments, weapon, pickDraw);
  }

  /** A book made without a loss probability loses exactly on draws below
      0.1. */
  lemma DefaultBookLoses<R>(enchantments: seq<Enchantment>, weapon: Weapon<R>, lossDraw: Draw, pickDraw: Draw)
    ensures Enchant(New(enchantments, None), weapon, lossDraw, pickDraw).enchantment == Absent <==> lossDraw < 0.1
  {
  }

  /** Loss probability 0, the single-entry table `{ fire: Inferno }` and an
      unenchanted weapon: the result is the weapon plus Inferno. */
  lemma SingleEntryEnchants(lossDraw: Draw, pickDraw: Draw)
    ensures var book := New([EnchantingTests.Inferno], Some(0.0));
      Enchant(book, EnchantingTests.Nooblet, lossDraw, pickDraw)
        == EnchantingTests.Nooblet.(enchantment := Holds(EnchantingTests.Inferno))
  {
    var book := New([EnchantingTests.Inferno], Some(0.0));
    assert Admits(EnchantingTests.Inferno, None);
    assert HasCandidate(book.enchantments, None);
  }

  /** Loss probability 0, the same table and a weapon already carrying
      Inferno: no candidate is left, so the property is set to
      `undefined`. */
  lemma SingleEntryAlreadyEnchanted(lossDraw: Draw, pickDraw: Draw)
    ensures var book := New([EnchantingTests.Inferno], Some(0.0));
      var weapon := EnchantingTests.Nooblet.(enchantment := Holds(EnchantingTests.Inferno));
      Enchant(book, weapon, lossDraw, pickDraw) == weapon.(enchantment := Undefined)
  {
    var book := New([EnchantingTests.Inferno], Some(0.0));
    var weapon := EnchantingTests.Nooblet.(enchantment := Holds(EnchantingTests.Inferno));
    assert !HasCandidate(book.enchantments, CurrentPrefix(weapon));
  }

  /** An empty table leaves any weapon that is not stripped with the
      property set to `undefined`. */
  lemma EmptyTableGivesUndefined<R>(book: MagicBook, weapon: Weapon<R>, lossDraw: Draw, pickDraw: Draw)
    requires book.enchantments == []
    requires !ShouldLoseEnchantment(book, lossDraw)
    ensures Enchant(book, weapon, lossDraw, pickDraw) == weapon.(enchantment := Undefined)
  {
  }
}
