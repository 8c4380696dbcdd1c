# Enchanting kata — a Dafny model

This project models the weapon-enchanting rule of the enchanting kata. A
weapon is enchanted from a table of enchantments. Each enchantment has a
`prefix` and an `attribute`. The new enchantment is drawn at random from the
table entries whose prefix differs from the weapon's current one. The final
version, the `MagicBook` class, first makes a loss draw. If the draw falls
below the book's loss probability (0.1 by default), the weapon's
`enchantment` property is deleted instead. The earlier version, a curried
`enchant(enchantments)(weapon)` wrapped by `setupEnchanter`, has no loss
branch.

Both versions are pure: they build a new weapon and change nothing. They are
modelled as datatypes and functions, with the random draws as arguments:

- `Enchanting` (`enchanting.dfy`) holds what both versions share. That is the
  `Enchantment`, a `Weapon<R>` and the `Draw` type. It also holds the
  candidate filter `Available`, the index `PickIndex` and the non-loss path
  `EnchantFromTable`. A `Weapon<R>` keeps every property other than
  `enchantment` in a `rest: R` the rule never inspects. A `Draw` is a real in
  [0, 1), standing for a value of `Math.random()`. `PickIndex` computes
  `Math.floor(draw * n)`.
- `MagicBooks` (`magic_book.dfy`) models `tests/MagicBook.ts`. It holds the
  `MagicBook` configuration, its constructor `New`, `ShouldLoseEnchantment`
  and `Enchant`.
- `EnchantingTests` (`enchanting_test.dfy`) models the curried `Enchant`,
  `SetupEnchanter` and the deterministic test scenarios of
  `tests/enchanting.test.ts`. Each scenario is proved for every value of the
  draws.

The `enchantment` property has three states, kept apart by the `Slot` type.
`Absent` means there is no key. `Undefined` means the key holds `undefined`.
`Holds(e)` means the key holds `e`. A reader of `weapon.enchantment` gets
`undefined` in both of the first two cases, but the code keeps them apart: a
loss deletes the key (tests/MagicBook.ts:29-31), while an empty candidate list
sets it to `undefined` (tests/MagicBook.ts:40-43). The model keeps them apart
too.

## Model

| member | source | states |
|---|---|---|
| `Enchanting.Available` | tests/MagicBook.ts:34-36 | an entry is a candidate iff it is in the table and passes `Admits`, the test `prefix !== weapon.enchantment?.prefix` with `CurrentPrefix` as the right-hand side, i.e. its prefix differs from the weapon's current prefix; every entry is a candidate when the weapon is unenchanted; never longer than the table |
| `Enchanting.AvailableAppend` | tests/MagicBook.ts:34-36 | filtering a concatenation is the concatenation of the filtered parts, so candidates keep table order |
| `Enchanting.AvailableCount` | tests/MagicBook.ts:34-36 | a kept entry occurs among the candidates as often as in the table, and a dropped one not at all |
| `Enchanting.AvailableEmpty` | tests/MagicBook.ts:34-36 | the candidate list is empty iff no table entry has a prefix other than the current one |
| `Enchanting.TwoPrefixesGiveCandidate` | tests/MagicBook.ts:34-36 | a table with two different prefixes always leaves a candidate, whatever the weapon carries |
| `Enchanting.PickIndex` | tests/MagicBook.ts:38 | with n > 0 candidates the index floor(draw * n) lies in [0, n); with none it is 0 |
| `Enchanting.PickIndexInterval` | tests/MagicBook.ts:38 | index i is picked iff the draw lies in [i/n, (i+1)/n), an interval of width 1/n for every candidate |
| `Enchanting.PickIndexReaches` | tests/MagicBook.ts:38 | the draw i/n is a valid draw and picks index i |
| `Enchanting.ElementAt` | tests/MagicBook.ts:42 | the JavaScript index `s[i]`: holds `s[i]` iff i is an index of s, otherwise the key is set to `undefined`; never deletes the key |
| `Enchanting.EnchantFromTable` | tests/MagicBook.ts:34-43 | the non-loss path keeps every other property and always sets the key; it holds an enchantment iff a candidate exists, and then that enchantment is a table entry with a different prefix |
| `Enchanting.EnchantFromTableReaches` | tests/MagicBook.ts:38-42 | every candidate is the result for some draw |
| `Enchanting.EnchantFromTableExcludesCurrent` | tests/MagicBook.ts:34-43 | an enchanted weapon re-enchanted from a table with two prefixes gets an enchantment with another prefix |
| `MagicBooks.New` | tests/MagicBook.ts:13-19 | the table is kept; a supplied loss probability is kept as given and a missing one becomes 0.1 |
| `MagicBooks.ShouldLoseEnchantment` | tests/MagicBook.ts:21-23 | a probability of at most 0 never fires and one of at least 1 always fires |
| `MagicBooks.Enchant` | tests/MagicBook.ts:26-44 | other properties are kept; the key is deleted iff the loss draw is below the probability; it is set to undefined iff there is no loss and no candidate; otherwise it holds a table entry with a different prefix |
| `MagicBooks.NoLossAgreesWithCurriedEnchant` | tests/MagicBook.ts:33-43 | without loss the book enchants exactly as the earlier curried enchant with the book's table |
| `MagicBooks.CertainLoss` | tests/MagicBook.ts:21-31 | with loss probability at least 1 the result is the weapon without its enchantment key |
| `MagicBooks.NeverLost` | tests/MagicBook.ts:21-43 | with loss probability at most 0 and a candidate available, the result always holds an enchantment |
| `MagicBooks.ExcludesCurrentPrefix` | tests/MagicBook.ts:34-43 | without loss, an enchanted weapon and two prefixes in the table, the new prefix differs from the old one |
| `MagicBooks.DefaultBookLoses` | tests/MagicBook.ts:18-23 | a book made without a loss probability deletes the enchantment exactly on draws below 0.1 |
| `MagicBooks.SingleEntryEnchants` | tests/MagicBook.ts:26-43 | loss probability 0, the table `{ fire: Inferno }` and an unenchanted weapon give the weapon plus Inferno |
| `MagicBooks.SingleEntryAlreadyEnchanted` | tests/MagicBook.ts:34-43 | the same table and a weapon already carrying Inferno give the key set to undefined |
| `MagicBooks.EmptyTableGivesUndefined` | tests/MagicBook.ts:34-43 | an empty table and no loss give the key set to undefined |
| `EnchantingTests.Enchant` | tests/enchanting.test.ts:124-133 | for every weapon and draw: other properties kept, key always set, an enchantment iff a candidate exists, and then a table entry with a different prefix |
| `EnchantingTests.SetupEnchanter` | tests/enchanting.test.ts:134-138 | the returned enchanter's `enchant` behaves exactly like `enchant(table)` on every weapon and draw |
| `EnchantingTests.EnchantsNonEnchantedWeapon` | tests/enchanting.test.ts:39-59 | the single-entry Inferno table turns the dagger into the dagger plus Inferno, for every draw |
| `EnchantingTests.EnchantsWithAnotherEnchantment` | tests/enchanting.test.ts:82-103 | with the five-entry table, enchanting twice gives an enchantment each time and the second differs from the first, for all draws |
| `EnchantingTests.RandomPicksCanCoincide` | tests/enchanting.test.ts:62-78 | the draws 0.0 and 0.1 pick the same enchantment from the five-entry table |

## Left out

- `Math.random()` is not modelled: each draw is an argument of type `Draw`, a real in [0, 1).
- The floating-point rounding of `Math.random() * n` is not modelled: the product is exact over reals.
- A loss probability of NaN is not modelled: `real` has no NaN. In the source such a book would never strip an enchantment.
- Table keys and `Object.values` ordering are not modelled: the table is the sequence of its values in order, since only the values are consulted.
- Aliasing of the table record is not modelled: the book stores the caller's object, so later changes to it would show through. The model takes the table by value.
- Non-mutation of the input weapon and of the book's fields holds by construction: all values are immutable datatypes, and only `New` sets a book's fields.
- The key order of the object built by the spread is not modelled.
- The test "chooses a random enchantment" (tests/enchanting.test.ts:62-78) is not a property of `enchant`: two independent draws may pick the same entry, as `RandomPicksCanCoincide` shows.
- The `it.todo` and the skipped name-prefix test (tests/enchanting.test.ts:105-121) are not modelled: that behaviour was never implemented.
- The Jest harness is not modelled. `expect.any(String)` is always met by the `string` fields of `Enchantment`, so `expectAnyEnchantment` becomes the predicate `HasAnyEnchantment`.
- Weapons whose `enchantment` is `null` or not an object are not modelled: the source types the weapon as `any`, and the model keeps to the three states above.
