# Composite-value factories of psycopg2-special-moves, in Dafny

This project models the part of `ericlib.py` that turns a PostgreSQL composite
value into one of the repository's own record objects, and proves what that
conversion does.

psycopg2 hands a composite caster two things. The first is `attnames`, the
composite type's attribute names as the catalog lists them. The second is
`values`, the tuple of raw field values. `FighterFactory.make` and
`SpecialMoveFactory.make` then do three things:

1. They pair the names with the values using `zip`. `zip` stops at the
   shorter of the two sequences.
2. They build a mapping with `dict`. When a name occurs twice, the later
   pair wins.
3. They call `Fighter(**d)` or `SpecialMove(**d)`. Python binds each keyword
   to the constructor parameter of the same name. If a keyword matches no
   parameter, or a parameter gets no keyword, the call raises `TypeError`.

Each record class also has a `__str__` with a fixed layout:
`"<class name>: <title> (<kind> ID: <id>)"`.

Modules:

- `Values` (values.dfy) defines the raw field value. It is an integer, a
  string, or SQL NULL (Python `None`). The module also defines Python's
  `str()` of a value, since that is what `str.format` produces for these
  types, and proves that an integer's decimal text reads back to the same
  integer.
- `Binding` (binding.dfy) defines `zip`, `dict` over pairs, and keyword
  binding against a parameter list. It also proves the facts about
  `dict(zip(attnames, values))` that both factories rely on.
- `EricLib` (ericlib.dfy) defines the two records, their constructors,
  `getattr` on them (`FighterAttr`, `SpecialMoveAttr`), the two `make`
  functions, the two renderings, and the lemmas about them.

A failed `make` returns `Err(TypeError(unexpected, missing))` and no record.
`unexpected` is the set of keywords that match no parameter. `missing` is the
set of parameters that received no keyword.

`make` itself checks no length. The registry, the catalog query that fills
`attnames` and the tuple-length check live in psycopg2's `register_composite`
and `CompositeCaster`, which are not part of this model. In `make` alone:

- a tuple shorter than `attnames` leaves a parameter unbound and fails with
  `TypeError` (`MakeFighterShortFails`);
- a tuple longer than `attnames` has its extra values dropped without error
  (`MakeFighterIgnoresExtra`).

## Model

| member | source | states |
|---|---|---|
| `Values.IntToDecimal` | ericlib.py:313 | `str()` of an `int` is non-empty and starts with `-` exactly when the number is negative; every other character is a digit, and there is no leading zero (0 prints as "0") |
| `Values.NatDecimalRoundTrip` | ericlib.py:313 | reading the decimal digits of a natural number back gives that number |
| `Values.IntDecimalRoundTrip` | ericlib.py:313 | the text `str()` gives for any integer ID parses back to the same integer, so the printed ID is never ambiguous |
| `Values.ValueStr` | ericlib.py:310-313 | formatting a field keeps a string unchanged, prints an integer as its canonical decimal text (`IntToDecimal`), which parses back to it, and prints `None` as "None" |
| `Binding.Zip` | ericlib.py:318 | `zip` gives `min(len(attnames), len(values))` pairs, and pair i is `(attnames[i], values[i])` |
| `Binding.ToMap` | ericlib.py:318 | `dict(pairs)` has exactly the keys that occur in the pairs |
| `Binding.ToMapLastWins` | ericlib.py:318 | a key that occurs several times holds the value of its last pair |
| `Binding.Bind` | ericlib.py:319 | `**kw` binding succeeds exactly when the keyword names are the parameter names, and then passes `kw[p]` to each parameter p in declaration order; otherwise it is a `TypeError` naming the unexpected keywords and the missing parameters |
| `Binding.ZipToDict` | ericlib.py:318 | the keys of `dict(zip(attnames, values))` are the attribute names that `zip` did not cut off |
| `Binding.ZipToDictPositional` | ericlib.py:318 | for every i below both lengths, `attnames[i]` maps to `values[i]` unless a later pair that `zip` keeps repeats the name |
| `Binding.ZipToDictDistinct` | ericlib.py:318 | with distinct names and equal lengths, the keys are all the names and each name maps to the value at its position |
| `Binding.ZipToDictDropsExtra` | ericlib.py:318 | values past the end of `attnames` do not change the mapping |
| `Binding.ZipToDictPermutation` | ericlib.py:318 | applying one permutation to both distinct names and values gives the same mapping |
| `EricLib.NewFighter` | ericlib.py:304-306 | `Fighter(**kw)` succeeds exactly when the keywords are {fighter_id, title}; it then stores each value unchanged in the attribute of that name, and otherwise reports the binding `TypeError` |
| `EricLib.FighterAttr` | ericlib.py:305-306 | a `Fighter` has exactly the attributes `fighter_id` and `title`, holding the stored values |
| `EricLib.NewFighterAttr` | ericlib.py:304-306 | each keyword's value can be read back from the constructed `Fighter` under the keyword's name |
| `EricLib.MakeFighter` | ericlib.py:317-319 | `FighterFactory.make` succeeds exactly when the names `zip` keeps are {fighter_id, title}; otherwise it returns the `TypeError` for those names and no record |
| `EricLib.MakeFighterPositional` | ericlib.py:317-319 | after a successful make, the attribute named `attnames[i]` holds `values[i]`, unless a later pair that `zip` keeps repeats the name |
| `EricLib.MakeFighterShortFails` | ericlib.py:318-319 | with distinct catalog names, a tuple shorter than the names fails, and `missing` is exactly the names past the tuple's end |
| `EricLib.MakeFighterIgnoresExtra` | ericlib.py:318-319 | trailing values beyond the names do not change the result |
| `EricLib.MakeFighterPermutation` | ericlib.py:318-319 | permuting names and values together gives the same `Fighter`, because binding is by name |
| `EricLib.MakeFighterInOrder` | ericlib.py:317-319 | with names in declaration order, `make(x, y)` is `Fighter(x, y)` |
| `EricLib.FighterStr` | ericlib.py:308-313 | `str(fighter)` is "Fighter: ", then the title text, then " (fighter ID: ", then the ID text, then ")" |
| `EricLib.FighterStrDistinguishesIds` | ericlib.py:310-313 | two renderings with the same title that differ in their integer ID are different strings |
| `EricLib.FighterStrDistinguishesTitles` | ericlib.py:310-313 | two renderings with the same ID are equal only if the titles print the same |
| `EricLib.LiuKangDecoded` | ericlib.py:317-319 | the tuple (1, 'Liu Kang') decodes to Fighter(1, 'Liu Kang') |
| `EricLib.LiuKangRendered` | ericlib.py:308-313 | Fighter(1, 'Liu Kang') renders "Fighter: Liu Kang (fighter ID: 1)" |
| `EricLib.NewSpecialMove` | ericlib.py:323-327 | `SpecialMove(**kw)` succeeds exactly when the keywords are {special_move_id, fighter_id, title, damage}; it then stores each value unchanged, and otherwise reports the binding `TypeError` |
| `EricLib.SpecialMoveAttr` | ericlib.py:324-327 | a `SpecialMove` has exactly its four attributes, holding the stored values |
| `EricLib.NewSpecialMoveAttr` | ericlib.py:323-327 | each keyword's value can be read back from the constructed `SpecialMove` under the keyword's name |
| `EricLib.MakeSpecialMove` | ericlib.py:338-340 | `SpecialMoveFactory.make` succeeds exactly when the names `zip` keeps are the four parameters; otherwise it returns the `TypeError` and no record |
| `EricLib.MakeSpecialMovePositional` | ericlib.py:338-340 | after a successful make, the attribute named `attnames[i]` holds `values[i]`, unless a later pair that `zip` keeps repeats the name |
| `EricLib.MakeSpecialMoveShortFails` | ericlib.py:339-340 | with distinct catalog names, a tuple shorter than the names fails, and `missing` is exactly the names past the tuple's end |
| `EricLib.MakeSpecialMoveIgnoresExtra` | ericlib.py:339-340 | trailing values beyond the names do not change the result |
| `EricLib.MakeSpecialMovePermutation` | ericlib.py:339-340 | permuting names and values together gives the same `SpecialMove` |
| `EricLib.MakeSpecialMoveInOrder` | ericlib.py:338-340 | with the names [special_move_id, fighter_id, title, damage], a 4-tuple gives a move whose four fields are the tuple's elements in that order |
| `EricLib.SpecialMoveStr` | ericlib.py:329-334 | `str(move)` is "SpecialMove: ", then the title text, then " (special move ID: ", then the ID text, then ")" |
| `EricLib.SpecialMoveStrIgnoresFighterAndDamage` | ericlib.py:331-334 | changing `fighter_id` or `damage` does not change the rendering |
| `EricLib.SpecialMoveStrDistinguishesIds` | ericlib.py:331-334 | two renderings of a move that differ only in their integer ID are different strings |
| `EricLib.FireBlastDecoded` | ericlib.py:338-340 | the tuple (1, 1, 'Fire blast', 20) decodes to SpecialMove(1, 1, 'Fire blast', 20) |
| `EricLib.FireBlastRendered` | ericlib.py:329-334 | that move renders "SpecialMove: Fire blast (special move ID: 1)" |

## Left out

- Database work: table creation, seed inserts, the reports, registering the composite types and the entry script (ericlib.py:29-300 and 342-438, eric.py). It is SQL on a live connection plus console output.
- psycopg2's `register_composite` and `CompositeCaster` are not part of this model. That includes the type registry, the catalog query that fills `attnames`, parsing composite text, the tuple-length check and casting arrays of composites. `attnames` and `values` are parameters of the model.
- The order of records in aggregated arrays comes from the SQL `ORDER BY` in the query, not from repository code.
- Field values are limited to integers, strings and `None`, which covers the columns these tables have. Other Python types a driver could deliver are not modelled.
- `Bind` reports a `TypeError` as two sets of names: the unexpected keywords and the missing parameters. The message text of the exception is not modelled.
- `Bind` treats a keyword named `self` as unexpected. CPython reports it as "multiple values for argument 'self'". In both cases binding fails with `TypeError`.
- The class name in `__str__` comes from `self.__class__.__name__`. It is fixed to "Fighter" and "SpecialMove", because the repository defines no subclasses.
- `MakeFighterPositional`, `MakeSpecialMovePositional` and `ZipToDictPositional` speak only of a name that does not recur among the later pairs `zip` keeps. With such a repeat, `dict` keeps the last value (`ToMapLastWins`).
- `MakeFighterPermutation`, `MakeSpecialMovePermutation` and the short-tuple lemmas assume distinct attribute names, which the catalog guarantees. With repeated names the permutation property no longer holds, because `dict` keeps whichever duplicate comes last.
