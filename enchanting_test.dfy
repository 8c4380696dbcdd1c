/** The earlier, curried version of the rule, with no loss branch, the
    `setupEnchanter` wrapper around it, and the deterministic scenarios its
    tests pin down, stated for every value of the random draw. */
module EnchantingTests {
  import opened Enchanting

  /** `enchant(enchantments)`: a closure that re-enchants a weapon from the
      fixed table. The random draw is its second argument. */
  function Enchant<R(!new)>(enchantments: seq<Enchantment>): (enchant: (Weapon<R>, Draw) -> Weapon<R>)
    ensures forall weapon: Weapon<R>, draw: Draw ::
      && enchant(weapon, draw).rest == weapon.rest
      && enchant(weapon, draw).enchantment != Absent
      && (enchant(weapon, draw).enchantment.Holds? <==> HasCandidate(enchantments, CurrentPrefix(weapon)))
      && (enchant(weapon, draw).enchantment.Holds? ==>
            enchant(weapon, draw).enchantment.value in enchantments
            && Admits(enchant(weapon, draw).enchantment.value, CurrentPrefix(weapon)))
  {
    (weapon: Weapon<R>, draw: Draw) => EnchantFromTable(enchantments, weapon, draw)
  }

  /** The record `setupEnchanter` returns. */
  datatype Enchanter<!R> = Enchanter(enchant: (Weapon<R>, Draw) -> Weapon<R>)

  /** `setupEnchanter({ enchantments })`: fixes the table once. */
  function SetupEnchanter<R(!new)>(enchantments: seq<Enchantment>): (enchanter: Enchanter<R>)
    ensures forall weapon: Weapon<R>, draw: Draw ::
      enchanter.enchant(weapon, draw) == Enchant(enchantments)(weapon, draw)
  {
    Enchanter(Enchant(enchantments))
  }

  const Icy := Enchantment("Icy", "+5 ice damage")
  const Inferno := Enchantment("Inferno", "+5 fire damage")
  const Vampire := Enchantment("Vampire", "+5 lifesteal")
  const Quick := Enchantment("Quick", "+5 agility")
  const Angry := Enchantment("Angry", "+5 strength")

  /** The values of the tests' five-entry table, in declaration order. */
  const DefaultEnchantments: seq<Enchantment> := [Icy, Inferno, Vampire, Quick, Angry]

  /** The tests' weapon `{ name: 'Dagger of the Nooblet' }`. */
  const Nooblet: Weapon<map<string, string>> := Weapon(map["name" := "Dagger of the Nooblet"], Absent)

  /** A non-enchanted weapon enchanted from the single-entry table
      `{ fire: Inferno }` is the weapon plus that enchantment, whatever
      the draw. */
  lemma EnchantsNonEnchantedWeapon(draw: Draw)
    ensures SetupEnchanter([Inferno]).enchant(Nooblet, draw) == Nooblet.(enchantment := Holds(Inferno))
  {
    var r := SetupEnchanter([Inferno]).enchant(Nooblet, draw);
    assert Inferno in [Inferno] && Admits(Inferno, CurrentPrefix(Nooblet));
    assert r.enchantment.value in [Inferno];
  }

  /** Every enchantment has a string prefix and a string attribute, so the
      tests' `expectAnyEnchantment` holds exactly when the property holds
      an enchantment. */
  predicate HasAnyEnchantment<R>(weapon: Weapon<R>)
  {
    weapon.enchantment.Holds?
  }

  /** Enchanting the weapon twice with the default table: both results
      carry an enchantment, and the second differs from the first, whatever
      the two draws. */
  lemma EnchantsWithAnotherEnchantment(draw1: Draw, draw2: Draw)
    ensures var enchanter := SetupEnchanter(DefaultEnchantments);
      var once := enchanter.enchant(Nooblet, draw1);
      var twice := enchanter.enchant(once, draw2);
      && HasAnyEnchantment(once)
      && HasAnyEnchantment(twice)
      && twice.enchantment != once.enchantment
  {
    var enchanter := SetupEnchanter(DefaultEnchantments);
    assert Icy in DefaultEnchantments && Inferno in DefaultEnchantments;
    assert HasTwoPrefixes(DefaultEnchantments);
    TwoPrefixesGiveCandidate(DefaultEnchantments, None);
    var once := enchanter.enchant(Nooblet, draw1);
    EnchantFromTableExcludesCurrent(DefaultEnchantments, once, draw2);
  }

  /** Two draws can pick the same enchantment, so two enchants of the same
      weapon do not always differ. */
  lemma RandomPicksCanCoincide()
    ensures var enchanter := SetupEnchanter(DefaultEnchantments);
      enchanter.enchant(Nooblet, 0.0) == enchanter.enchant(Nooblet, 0.1)
  {
    assert Available(DefaultEnchantments, None) == DefaultEnchantments;
    assert PickIndex(0.0, 5) == 0;
    assert PickIndex(0.1, 5) == 0;
  }
}
