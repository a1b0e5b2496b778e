# Godot XTension Pack / GodotExtensionator — a verified model of the deterministic core

This project models, in Dafny, the parts of the two C# Godot helper libraries
that hold deterministic logic. The rest of both libraries is thin glue over engine calls.

- **Finite state machine** (`fsm.dfy`). It models `FiniteStateMachineComponent`,
  `MachineState`, `Transition` and `NeutralTransition`:
  - a registry of states keyed by name;
  - a map of transitions keyed by a synthesised name (`"{from}To{to}Transition"`, with the
    wildcard `"AnyTo{to}Transition"` as fallback);
  - the guard-then-effect change protocol with its fixed order of hooks and events;
  - the bounded history stack, which evicts its oldest entry or flushes when full.

  The driver is a class whose fields are updated in place. Hook calls and raised events are
  recorded, in order, in a `log` field.
- **Integer and string codecs** (`math_extension.dfy`, `string_extension.dfy`, `round_trips.dfy`).
  They cover:
  - the int predicates and `IsBetween`;
  - hexadecimal and binary rendering;
  - thousand separators, ordinals and Roman numerals in both directions;
  - the 32-bit `Factorial`;
  - packing bools into a byte and back;
  - the round trips `DecimalFromHex ∘ Hexadecimal` and `RomanNumberToInteger ∘ ToRomanNumber`.

  One module serves each pair of copies. `Godot-XTension-Pack/src/Godot/Extensions/MathExtension.cs`
  has every modelled member. `Godot-XTension-Pack/src/Godot/MathExtension.cs` has the same bodies
  at other line numbers, but lacks `IsEven`, `IsOdd` and the byte packers (`ToByte`, `ToBits`,
  `ByteToBools`). The two `StringExtension` copies share the bodies of `DecimalFromHex` and
  `RomanNumberToInteger`; the Godot-XTension-Pack copy has further members that are not modelled.
- **Collection helpers** (`dictionary_extension.dfy`, `bool_extension.dfy`):
  - in-place dictionary updates (`AddRange`, `AddOrUpdate`) and key queries;
  - the three bool conversions.
- **Scene-tree traversals** (`node_extension.dfy`, `node2d_extension.dfy`). They run over an
  ordered tree of nodes, each with a class name and a type name:
  - descendant listings, which prune differently;
  - class and type searches;
  - ancestor chains and depth;
  - absolute z-index along the parent chain;
  - the nearest/farthest selection rule, which serves the 2D and 3D copies alike. Distance is an
    abstract function there.
- **Autoload state holders** (`gamepad.dfy`, `sound_pool.dfy`, `music_manager.dfy`, `file_reader.dfy`):
  - controller classification and connection events;
  - the sound pool's size clamp, first-free-player choice and bus-filtered stop;
  - the music bank and the play/crossfade decisions;
  - the CSV line filter and the rows-to-dictionaries transformation.

Shared C# semantics live in `common.dfy` and `text.dfy`:
- 32-bit wrap-around;
- the truncating `%`;
- `string.Trim` over the `char.IsWhiteSpace` set, which is what Godot's `StripEdges` calls;
- ordinal ASCII lower-casing;
- `int.ToString()`.

Where a doc comment disagrees with the code, the model follows the code:
- `AddRange` never throws.
- `Factorial` of a negative number recurses forever; it does not throw.
- `RomanNumberToInteger` skips unknown characters.
- The nearest/farthest doc comments are swapped.
- The state machine caches the neutral fallback under the resolved name and re-enables every state.

Failure modes of the operations that change state are outcomes, not preconditions:
- An exception (a duplicate `Add`, a null dereference of `CurrentState`) is a `thrown`, `crashed`
  or `Crashed` result, and leaves the state as the source leaves it at that point.
- The read-only queries are predicates, which cannot fail. `CurrentStateIs(string)` therefore
  requires a current state, where the source throws (see "Left out").
- `GD.PushError` is a logged error event.
- Engine queries are parameters:
  - the joypad count;
  - the available and muted buses;
  - the random pick;
  - the pitch drawn in a pitch range;
  - the value normaliser applied to CSV fields;
  - the lines `GetCsvLine` returns.

## Model

| member | source | states |
|---|---|---|
| BoolExtension.Toggle | Godot-XTension-Pack/src/General/BoolExtension.cs:13 | The result always differs from the input. |
| BoolExtension.ToSign | Godot-XTension-Pack/src/General/BoolExtension.cs:25 | The result is 1 or -1, and positive exactly when the input is true. |
| BoolExtension.ToInt | Godot-XTension-Pack/src/General/BoolExtension.cs:37 | The result is 0 or 1, and 1 exactly when the input is true. |
| BoolExtension.ToggleTwice | Godot-XTension-Pack/src/General/BoolExtension.cs:13 | Toggling twice gives back the original value. |
| BoolExtension.SignFromInt | Godot-XTension-Pack/src/General/BoolExtension.cs:25-37 | ToSign(b) = 2·ToInt(b) − 1, and toggling negates the sign. |
| DictionaryExtension.Merged | Godot-XTension-Pack/src/General/DictionaryExtension.cs:17-20 | Reference semantics of AddRange. The keys are the union of both key sets, a key already present keeps its old value, and a new key takes the source's value. |
| DictionaryExtension.MergedIdempotent | Godot-XTension-Pack/src/General/DictionaryExtension.cs:17-20 | Adding the same range a second time changes nothing, because TryAdd never overwrites. |
| DictionaryExtension.Dictionary.AddRange | Godot-XTension-Pack/src/General/DictionaryExtension.cs:17-20 | The per-entry TryAdd loop leaves exactly Merged(old entries, range). |
| DictionaryExtension.Dictionary.TryAdd | Godot-XTension-Pack/src/General/DictionaryExtension.cs:19 | It adds exactly when the key was absent, and an existing entry is never overwritten. |
| DictionaryExtension.Dictionary.AddOrUpdate | Godot-XTension-Pack/src/General/DictionaryExtension.cs:36-43 | It returns the value, dict[key] = value, every other entry is unchanged, and the size grows by one exactly when the key was absent. |
| DictionaryExtension.Dictionary.ContainsAnyKey | Godot-XTension-Pack/src/General/DictionaryExtension.cs:53-55 | True iff some listed key is present, and false for an empty list. |
| DictionaryExtension.Dictionary.ContainsAllKeys | Godot-XTension-Pack/src/General/DictionaryExtension.cs:69-71 | True iff every listed key is present, and true for an empty list. |
| DictionaryExtension.AddRangeTwice | Godot-XTension-Pack/src/General/DictionaryExtension.cs:17-20 | Two AddRange calls with the same range leave the same entries as one call. |
| MathExtension.IsZero | Godot-XTension-Pack/src/Godot/Extensions/MathExtension.cs:46 | True iff the int is 0. SignPredicatesPartition makes it the complement of IsNotZero and one of the three sign cases. |
| MathExtension.IsNotZero | Godot-XTension-Pack/src/Godot/Extensions/MathExtension.cs:48 | True iff the int is not 0, the complement of IsZero (SignPredicatesPartition). |
| MathExtension.IsGreaterThanZero | Godot-XTension-Pack/src/Godot/Extensions/MathExtension.cs:50 | True iff the int is positive. Exactly one of it, IsZero and IsBelowZero holds (SignPredicatesPartition). |
| MathExtension.IsBelowZero | Godot-XTension-Pack/src/Godot/Extensions/MathExtension.cs:52 | True iff the int is negative (SignPredicatesPartition). |
| MathExtension.IsEven | Godot-XTension-Pack/src/Godot/Extensions/MathExtension.cs:54 | C#'s truncating remainder by 2 is 0. ParityIsExact proves this means divisible by two, negatives included. |
| MathExtension.IsOdd | Godot-XTension-Pack/src/Godot/Extensions/MathExtension.cs:55 | C#'s truncating remainder by 2 is not 0, which ParityIsExact proves is the exact complement of IsEven. |
| MathExtension.ParityIsExact | Godot-XTension-Pack/src/Godot/Extensions/MathExtension.cs:54-55 | With C#'s truncating `%`, IsEven and IsOdd are exact complements for every int, negatives included, and IsEven means divisible by two. |
| MathExtension.SignPredicatesPartition | Godot-XTension-Pack/src/Godot/MathExtension.cs:44-51 | IsZero and IsNotZero are complements, and exactly one of IsBelowZero, IsZero and IsGreaterThanZero holds. |
| MathExtension.IsBetween | Godot-XTension-Pack/src/Godot/Extensions/MathExtension.cs:105-110 | The int lies between the smaller and the larger bound, inclusive or exclusive. IsBetweenSymmetric and IsBetweenEndpoints state its meaning. |
| MathExtension.IsBetweenSymmetric | Godot-XTension-Pack/src/Godot/Extensions/MathExtension.cs:105-110 | Swapping min and max gives the same answer, which is the usual closed or open interval test between the two bounds. |
| MathExtension.IsBetweenEndpoints | Godot-XTension-Pack/src/Godot/MathExtension.cs:100-105 | Inclusive mode accepts both endpoints and exclusive mode rejects both. |
| MathExtension.HexDigits | Godot-XTension-Pack/src/Godot/Extensions/MathExtension.cs:133-144 | Empty iff n ≤ 0. Otherwise only HEX_CHARACTERS characters, with no leading zero. |
| MathExtension.Hexadecimal | Godot-XTension-Pack/src/Godot/Extensions/MathExtension.cs:133-144 | The prepend-a-digit while loop returns HexDigits(value). |
| MathExtension.HexadecimalLength | Godot-XTension-Pack/src/Godot/MathExtension.cs:128-139 | For n > 0 the length L of the hex string is the number of base-16 digits, so 16^(L-1) ≤ n < 16^L. |
| MathExtension.BinaryDigits | Godot-XTension-Pack/src/Godot/MathExtension.cs:346-358 | Empty iff n ≤ 0. Otherwise only '0' and '1', with a leading '1'. |
| MathExtension.ToBinary | Godot-XTension-Pack/src/Godot/Extensions/MathExtension.cs:351-362 | The while loop returns BinaryDigits(number). |
| MathExtension.BinaryRoundTrip | Godot-XTension-Pack/src/Godot/MathExtension.cs:346-358 | Reading the binary digits back gives n for n > 0, and 0 otherwise. |
| MathExtension.ThousandSeparator | Godot-XTension-Pack/src/Godot/Extensions/MathExtension.cs:152-165 | The foreach loop, with its `index % 3 == mod` test, produces the right-to-left grouping Grouped(value.ToString(), separator). |
| MathExtension.SeparatedPrefixIsGrouped | Godot-XTension-Pack/src/Godot/MathExtension.cs:147-160 | The loop's left-to-right insertion rule equals the grouping in blocks of three counted from the right. |
| MathExtension.GroupedWithoutSeparator | Godot-XTension-Pack/src/Godot/Extensions/MathExtension.cs:152-165 | Removing the separator from the grouped text gives the text back, when the separator does not occur in it. |
| MathExtension.ThousandSeparatorDigits | Godot-XTension-Pack/src/Godot/Extensions/MathExtension.cs:152-165 | For n ≥ 0, removing the commas yields n.ToString(). The grouping is a 1–3 digit head followed by groups of exactly three. |
| MathExtension.ThousandSeparatorNegative | Godot-XTension-Pack/src/Godot/Extensions/MathExtension.cs:152-165 | The minus sign counts as a digit, so -123 becomes "-,123". |
| MathExtension.Factorial | Godot-XTension-Pack/src/Godot/Extensions/MathExtension.cs:244-249 | The recursive product, wrapped to 32 bits at every multiplication. A negative input has no result because the recursion never stops. FactorialMatchesMath, FactorialWrapsAt13 and FactorialOfNegativeDiverges describe it. |
| MathExtension.FactorialMatchesMath | Godot-XTension-Pack/src/Godot/Extensions/MathExtension.cs:244-249 | For 0 ≤ n ≤ 12 the 32-bit recursive Factorial is exactly n!, and n! fits an int. |
| MathExtension.FactorialBound | Godot-XTension-Pack/src/Godot/MathExtension.cs:239-244 | n! ≤ 12! for n ≤ 12. |
| MathExtension.FactorialWrapsAt13 | Godot-XTension-Pack/src/Godot/Extensions/MathExtension.cs:244-249 | At 13 the unchecked int product wraps to 1932053504. |
| MathExtension.FactorialOfNegativeDiverges | Godot-XTension-Pack/src/Godot/Extensions/MathExtension.cs:244-249 | A negative input never reaches a base case, so there is no result. |
| MathExtension.ToRomanNumber | Godot-XTension-Pack/src/Godot/Extensions/MathExtension.cs:277-293 | It works on \|n\|. A result exists iff \|n\| < 4000, 0 gives "", only I, V, X, L, C, D and M occur, and the leading run of M has length \|n\|/1000. |
| MathExtension.RomanTablesWellFormed | Godot-XTension-Pack/src/Godot/MathExtension.cs:272-288 | Thousands entries are runs of M, hundreds use only C, D and M without a leading M, tens use X, L and C, and ones use I, V and X. |
| MathExtension.ToOrdinal | Godot-XTension-Pack/src/Godot/Extensions/MathExtension.cs:300-313 | `int.ToString()` followed by the suffix chosen from the remainders by 100 and by 10. OrdinalSuffixRule and NegativeOrdinalSuffix state the rule. |
| MathExtension.OrdinalSuffixRule | Godot-XTension-Pack/src/Godot/Extensions/MathExtension.cs:300-313 | For n ≥ 0 the result is n.ToString() plus "th" when n mod 100 is in 11..13, else "st"/"nd"/"rd" for a last digit of 1/2/3, else "th". |
| MathExtension.NegativeOrdinalSuffix | Godot-XTension-Pack/src/Godot/MathExtension.cs:295-308 | A negative number keeps its minus sign and always gets "th", because C#'s remainder is negative. |
| MathExtension.BitArrayToByte | Godot-XTension-Pack/src/Godot/Extensions/MathExtension.cs:455-463 | A byte results iff exactly 8 bits are given (otherwise the source throws), and bit i of the byte is element i. |
| MathExtension.ToBits | Godot-XTension-Pack/src/Godot/Extensions/MathExtension.cs:497-501 | Eight bits, element i being bit i of the byte (least significant first). |
| MathExtension.BoolsToByte | Godot-XTension-Pack/src/Godot/Extensions/MathExtension.cs:476-486 | It fails iff more than 8 bools are given. Otherwise bit i is bools[i] for i < length, and the higher bits are 0. |
| MathExtension.ByteToBools | Godot-XTension-Pack/src/Godot/Extensions/MathExtension.cs:510-519 | It fails iff length is outside 0..8. Otherwise element i is bit i of the byte. |
| MathExtension.PackUnpackRoundTrip | Godot-XTension-Pack/src/Godot/Extensions/MathExtension.cs:476-519 | ByteToBools(ToByte(bs), bs.Length) = bs whenever bs has at most 8 elements. |
| MathExtension.BitOfBitsValue | Godot-XTension-Pack/src/Godot/Extensions/MathExtension.cs:476-486 | The bit at position i of the packed value is element i. |
| StringExtension.HexDigitValue | Godot-XTension-Pack/src/Godot/StringExtension.cs:6 | The digit value of a hex character in either case, or -1. |
| StringExtension.IndexIgnoringCase | Godot-XTension-Pack/src/Godot/StringExtension.cs:25 | IndexOf ignoring case. It returns the first table position whose character equals c ignoring case, or -1 iff there is none. |
| StringExtension.HexIndexIsDigitValue | GodotExtensionator/src/Extensions/StringExtension.cs:7-20 | Looking a character up in the 16-character table ignoring case gives its hexadecimal digit value. |
| StringExtension.HexValueCons | Godot-XTension-Pack/src/Godot/StringExtension.cs:24-31 | A leading digit contributes digit·16^(number of digits after it), so the least significant digit is last. |
| StringExtension.DecimalFromHex | Godot-XTension-Pack/src/Godot/StringExtension.cs:19-35 | After trimming, the result is the positional base-16 value (so empty or blank input gives 0), or -1 as soon as a non-hex character occurs. |
| StringExtension.HexSum | Godot-XTension-Pack/src/Godot/StringExtension.cs:24-32 | The loop over the trimmed text gives -1 if any character is not a hex digit. Otherwise it gives the positional base-16 value. |
| StringExtension.RomanNumberToInteger | GodotExtensionator/src/Extensions/StringExtension.cs:37-57 | The right-to-left loop returns RomanScan wrapped to 32 bits, since the source's `int` accumulator wraps. A symbol smaller than the last seen symbol is subtracted, any other is added. When the exact value fits an int, the result is that value. |
| StringExtension.RomanScanConcat | Godot-XTension-Pack/src/Godot/StringExtension.cs:43-63 | Scanning a + b is scanning b, then scanning a starting from the last symbol seen in b. |
| StringExtension.RomanIgnoresUnknown | Godot-XTension-Pack/src/Godot/StringExtension.cs:49-60 | Characters outside I, V, X, L, C, D and M (lower case included) are skipped: the value equals that of the string with them removed. |
| Common.Wrap32Add | GodotExtensionator/src/Extensions/StringExtension.cs:47-53 | Wrapping after each step of the running sum gives the same int as wrapping once at the end, which is what the loop relies on. |
| Text.Trim | Godot-XTension-Pack/src/Utilities/FileReader.cs:119 | `StripEdges`: drops the leading and trailing runs of `char.IsWhiteSpace` characters. TrimEdges proves neither end is then whitespace, and TrimKeepsPlainText that text without whitespace is kept. |
| Text.TrimEdges | Godot-XTension-Pack/src/Utilities/FileReader.cs:119 | After trimming, the text is empty or neither its first nor its last character is whitespace. |
| Text.TrimKeepsPlainText | Godot-XTension-Pack/src/Utilities/FileReader.cs:119 | Text without whitespace is returned unchanged. |
| Text.DecimalString | Godot-XTension-Pack/src/Godot/Extensions/MathExtension.cs:153 | `int.ToString()`: the decimal digits with no leading zero, and a minus sign for negatives. NaturalStringRoundTrip reads the digits back to the number. |
| Text.NaturalStringRoundTrip | Godot-XTension-Pack/src/Godot/Extensions/MathExtension.cs:153 | Reading the decimal digits of a natural number back gives the number. |
| RoundTrips.HexDigitsRoundTrip | Godot-XTension-Pack/src/Godot/StringExtension.cs:19-35 | The hex string of n is a valid hex string whose value is n for n > 0, and 0 otherwise. |
| RoundTrips.HexadecimalRoundTrip | Godot-XTension-Pack/src/Godot/Extensions/MathExtension.cs:133-144 | DecimalFromHex(Hexadecimal(n)) = n for n ≥ 0, and 0 for n < 0. |
| RoundTrips.RomanDigitsScan | Godot-XTension-Pack/src/Godot/StringExtension.cs:43-63 | Scanning the concatenation of the four numeral-table entries gives 1000t + 100h + 10e + o. |
| RoundTrips.RomanRoundTrip | Godot-XTension-Pack/src/Godot/Extensions/MathExtension.cs:277-293 | RomanNumberToInteger(ToRomanNumber(n)) = \|n\| for \|n\| < 4000. |
| RoundTrips.RomanNumeralRoundTrip | GodotExtensionator/src/Extensions/StringExtension.cs:37-57 | Composing the two methods gives \|n\| below 4000, and no numeral at or above it. |
| NodeExtension.Visible | GodotExtensionator/src/Extensions/NodeExtension.cs:253-258 | `GetChild(i)` indexes only non-internal children: the view keeps, in child order, only non-internal children of the list, and is never longer. |
| NodeExtension.VisibleEmpty | GodotExtensionator/src/Extensions/NodeExtension.cs:152-153 | `GetChildCount()` is zero exactly when every child is internal, so such a node may still have children. |
| NodeExtension.ChildCountZero | GodotExtensionator/src/Extensions/NodeExtension.cs:152-153 | ChildCount(n) is zero iff every child of n is internal. |
| NodeExtension.VisibleLast | GodotExtensionator/src/Extensions/NodeExtension.cs:253-258 | The last visible child is a non-internal child followed only by internal children. |
| NodeExtension.AllOf | GodotExtensionator/src/Extensions/NodeExtension.cs:341-356 | The pre-order listing of a forest: every node, then its subtree only when its `GetChildCount()` is positive. It has at most one entry per node of the forest. |
| NodeExtension.GetAllChildren | GodotExtensionator/src/Extensions/NodeExtension.cs:341-356 | The recursive foreach over `GetChildren(true)`, descending into a child only when `GetChildCount()` is positive, returns the pre-order listing AllOf of the children. |
| NodeExtension.AllChildrenAreDescendants | GodotExtensionator/src/Extensions/NodeExtension.cs:341-356 | The listing has at most size(n) − 1 entries. A node is listed iff the walk reaches it through children with a positive visible count. Every listed node is a descendant of n, and n itself is not listed. |
| NodeExtension.ForestMembers | GodotExtensionator/src/Extensions/NodeExtension.cs:341-356 | A node is listed iff it is one of the children, or is listed under a child whose `GetChildCount()` is positive. |
| NodeExtension.HiddenOnlyChildIsNotEntered | GodotExtensionator/src/Extensions/NodeExtension.cs:349 | A child whose children are all internal is listed, but the walk does not enter it, so its first child is not listed. |
| NodeExtension.ListingIsCompleteWithoutHiddenOnlyParents | GodotExtensionator/src/Extensions/NodeExtension.cs:341-356 | When no node has only internal children, the listing holds every descendant and has exactly size(n) − 1 entries. |
| NodeExtension.AllOfConcat | GodotExtensionator/src/Extensions/NodeExtension.cs:341-356 | Siblings are listed in child order: the listing of a + b is the listing of a followed by that of b. |
| NodeExtension.AllOfClass | GodotExtensionator/src/Extensions/NodeExtension.cs:319-334 | Every node in the class-filtered listing is of the class. |
| NodeExtension.GetAllChildrenOfClass | GodotExtensionator/src/Extensions/NodeExtension.cs:319-334 | The generic foreach returns AllOfClass(children). It lists and descends only through children of the class, and enters a child only when its `GetChildCount()` is positive. |
| NodeExtension.ClassListingSkipsOtherChildren | GodotExtensionator/src/Extensions/NodeExtension.cs:319-334 | A child not of the class contributes nothing, its whole subtree included. |
| NodeExtension.ClassListingOfUniformForest | GodotExtensionator/src/Extensions/NodeExtension.cs:319-334 | When every node is of the class, the generic listing equals the plain one. |
| NodeExtension.NodesByClass | GodotExtensionator/src/Extensions/NodeExtension.cs:150-166 | Every node found by the class search is assignable to the class. A non-matching child with a `GetChildCount()` of zero contributes nothing, even with internal children. |
| NodeExtension.GetNodesByClass | GodotExtensionator/src/Extensions/NodeExtension.cs:150-166 | A `GetChildCount()` of zero gives an empty result, even with internal children. Otherwise the foreach over all children, internal ones included, returns NodesByClass(children). |
| NodeExtension.NodesByClassPerChild | GodotExtensionator/src/Extensions/NodeExtension.cs:156-163 | A matching child is collected without looking inside it. A non-matching child is searched recursively when its `GetChildCount()` is positive, and contributes nothing otherwise. |
| NodeExtension.NodesByClassAreListed | GodotExtensionator/src/Extensions/NodeExtension.cs:150-166 | Every node found by the class search is a descendant. |
| NodeExtension.NodesByType | GodotExtensionator/src/Extensions/NodeExtension.cs:174-190 | Every node found by the type search has exactly that type. |
| NodeExtension.GetNodesByType | GodotExtensionator/src/Extensions/NodeExtension.cs:174-190 | A `GetChildCount()` of zero gives an empty result. Otherwise the foreach over all children returns NodesByType(children). |
| NodeExtension.NodesByTypePerChild | GodotExtensionator/src/Extensions/NodeExtension.cs:180-187 | An exact-type child is collected. Any other child, a subclass included, is searched when its `GetChildCount()` is positive, and contributes nothing otherwise. |
| NodeExtension.ClassAndTypeSearchesAgree | GodotExtensionator/src/Extensions/NodeExtension.cs:150-190 | When no node is of the class without being of the exact type, the two searches agree. |
| NodeExtension.FirstNodeOfType | GodotExtensionator/src/Extensions/NodeExtension.cs:203-215 | Only immediate children are inspected, internal ones included. It gives none iff every child is internal (a visible count of zero) or no child has the type. Otherwise it gives the first such child in order. |
| NodeExtension.FirstNodeOfClass | GodotExtensionator/src/Extensions/NodeExtension.cs:229-241 | Only immediate children are inspected, internal ones included. It gives none iff every child is internal or no child is of the class. Otherwise it gives the first such child in order. |
| NodeExtension.GetLastChild | GodotExtensionator/src/Extensions/NodeExtension.cs:251-259 | None iff every child is internal, a childless node included. Otherwise it gives a non-internal child that only internal children follow, which is `GetChild(GetChildCount() - 1)`. |
| NodeExtension.AncestorChainIsParentChain | GodotExtensionator/src/Extensions/NodeExtension.cs:291-309 | The ancestor list starts at the node's parent, each entry is the parent of the one before, and it ends at the root. |
| NodeExtension.GetAllAncestors | GodotExtensionator/src/Extensions/NodeExtension.cs:291-309 | The parent-walking while loop returns the whole ancestor chain, which is empty for a root. |
| NodeExtension.GetAllAncestorsOfClass | GodotExtensionator/src/Extensions/NodeExtension.cs:267-283 | The generic version returns the longest prefix of the ancestor chain whose nodes are all of the class. It stops at the first ancestor that is not. |
| NodeExtension.GetTreeDepth | GodotExtensionator/src/Extensions/NodeExtension.cs:466-477 | The depth is the number of ancestors (0 for a root). |
| Node2DExtension.GetAbsoluteZIndex | GodotExtensionator/src/Extensions/Node2DExtension.cs:102-117 | The parent-walking loop returns AbsoluteZ, and fails when the walk reaches a parent that is not a Node2D. |
| Node2DExtension.AbsoluteZIsChainSum | Godot-XTension-Pack/src/Extensions/Node2DExtension.cs:69-82 | Along a chain of z-relative Node2D nodes, the result is the sum of ZIndex up to and including the first non-relative node (or the top of the chain). |
| Node2DExtension.NonRelativeKeepsOwnZ | GodotExtensionator/src/Extensions/Node2DExtension.cs:108-111 | A node that is not z-relative returns exactly its own ZIndex. |
| Node2DExtension.NonNode2DParentFails | Godot-XTension-Pack/src/Extensions/Node2DExtension.cs:75-78 | A z-relative node whose parent is not a Node2D has no result, because the cast throws. |
| Node2DExtension.GetNearestNodeByDistance | GodotExtensionator/src/Extensions/Node2DExtension.cs:127-145 | It gives none iff no eligible candidate lies in [min, max]. Otherwise it gives an in-range candidate of minimal distance, with no earlier candidate as near (strict `<` keeps the first). |
| Node2DExtension.GetFarthestNodeByDistance | Godot-XTension-Pack/src/Extensions/Node2DExtension.cs:118-133 | It gives none iff no eligible candidate lies in [min, max]. Otherwise it gives an in-range candidate of maximal distance, with the earliest winning ties. |
| Node2DExtension.NearestPositionIsUnique | GodotExtensionator/src/Extensions/Node3DExtension.cs:71-86 | The nearest-and-earliest position is unique, so the selection rule determines the result. |
| Node2DExtension.FarthestPositionIsUnique | GodotExtensionator/src/Extensions/Node3DExtension.cs:96-111 | The farthest-and-earliest position is unique. |
| GamepadController.ControllerCategory | Godot-XTension-Pack/src/Autoload/Input/GamedpadControllerAutoload.cs:65-74 | Each listed controller name maps to its category, and every other name ("" included) maps to "keyboard". The two Joy-Con names are the only ones mapping to the Joy-Con categories. |
| GamepadController.CategoriesDifferIgnoringCase | Godot-XTension-Pack/src/Autoload/Input/GamedpadControllerAutoload.cs:19-26 | The category constants are distinct even ignoring case. |
| GamepadController.AtMostOneCategory | Godot-XTension-Pack/src/Autoload/Input/GamedpadControllerAutoload.cs:77-85 | No name satisfies two of the case-insensitive category predicates. |
| GamepadController.CategoryPredicatesAfterUpdate | Godot-XTension-Pack/src/Autoload/Input/GamedpadControllerAutoload.cs:60-85 | After an update, exactly the predicate of the computed category holds. |
| GamepadController.JoyconCategories | Godot-XTension-Pack/src/Autoload/Input/GamedpadControllerAutoload.cs:83-85 | CurrentControllerIsSwitchJoycon holds after an update iff the name was "Joy-Con (L)" or "Joy-Con (R)". |
| GamepadController.GamepadControllerAutoload.constructor | Godot-XTension-Pack/src/Autoload/Input/GamedpadControllerAutoload.cs:32-35 | Initially the category is keyboard, the device is 0 and the GUID is empty. |
| GamepadController.GamepadControllerAutoload.UpdateCurrentController | Godot-XTension-Pack/src/Autoload/Input/GamedpadControllerAutoload.cs:60-75 | It sets the device, the GUID and the category of the name, and changes nothing else. |
| GamepadController.GamepadControllerAutoload.CurrentControllerIsKeyboard | Godot-XTension-Pack/src/Autoload/Input/GamedpadControllerAutoload.cs:77 | The current category equals DEVICE_KEYBOARD ignoring case. AtMostOneCategory and CategoryPredicatesAfterUpdate prove that after an update exactly the predicate of the computed category holds. |
| GamepadController.GamepadControllerAutoload.CurrentControllerIsGeneric | Godot-XTension-Pack/src/Autoload/Input/GamedpadControllerAutoload.cs:78 | The current category equals DEVICE_GENERIC ignoring case. AtMostOneCategory and CategoryPredicatesAfterUpdate prove that after an update exactly the predicate of the computed category holds. |
| GamepadController.GamepadControllerAutoload.CurrentControllerIsLuna | Godot-XTension-Pack/src/Autoload/Input/GamedpadControllerAutoload.cs:79 | The current category equals DEVICE_LUNA_CONTROLLER ignoring case. AtMostOneCategory and CategoryPredicatesAfterUpdate prove that after an update exactly the predicate of the computed category holds. |
| GamepadController.GamepadControllerAutoload.CurrentControllerIsPlaystation | Godot-XTension-Pack/src/Autoload/Input/GamedpadControllerAutoload.cs:80 | The current category equals DEVICE_PLAYSTATION_CONTROLLER ignoring case. AtMostOneCategory and CategoryPredicatesAfterUpdate prove that after an update exactly the predicate of the computed category holds. |
| GamepadController.GamepadControllerAutoload.CurrentControllerIsXbox | Godot-XTension-Pack/src/Autoload/Input/GamedpadControllerAutoload.cs:81 | The current category equals DEVICE_XBOX_CONTROLLER ignoring case. AtMostOneCategory and CategoryPredicatesAfterUpdate prove that after an update exactly the predicate of the computed category holds. |
| GamepadController.GamepadControllerAutoload.CurrentControllerIsSwitch | Godot-XTension-Pack/src/Autoload/Input/GamedpadControllerAutoload.cs:82 | The current category equals DEVICE_SWITCH_CONTROLLER ignoring case. AtMostOneCategory and CategoryPredicatesAfterUpdate prove that after an update exactly the predicate of the computed category holds. |
| GamepadController.GamepadControllerAutoload.CurrentControllerIsSwitchJoyconLeft | Godot-XTension-Pack/src/Autoload/Input/GamedpadControllerAutoload.cs:84 | The current category equals DEVICE_SWITCH_JOYCON_LEFT_CONTROLLER ignoring case. AtMostOneCategory and CategoryPredicatesAfterUpdate prove that after an update exactly the predicate of the computed category holds. |
| GamepadController.GamepadControllerAutoload.CurrentControllerIsSwitchJoyconRight | Godot-XTension-Pack/src/Autoload/Input/GamedpadControllerAutoload.cs:85 | The current category equals DEVICE_SWITCH_JOYCON_RIGHT_CONTROLLER ignoring case. AtMostOneCategory and CategoryPredicatesAfterUpdate prove that after an update exactly the predicate of the computed category holds. |
| GamepadController.GamepadControllerAutoload.CurrentControllerIsSwitchJoycon | Godot-XTension-Pack/src/Autoload/Input/GamedpadControllerAutoload.cs:83 | Either Joy-Con predicate holds. JoyconCategories proves this holds after an update iff the name was "Joy-Con (L)" or "Joy-Con (R)". |
| GamepadController.GamepadControllerAutoload.OnJoyConnectionChanged | Godot-XTension-Pack/src/Autoload/Input/GamedpadControllerAutoload.cs:87-96 | On connect, it fires ControllerConnected(device, new category). On disconnect the empty name gives keyboard, and ControllerDisconnected carries the category captured before the update. |
| GamepadController.GamepadControllerAutoload.StartControllerVibration | Godot-XTension-Pack/src/Autoload/Input/GamedpadControllerAutoload.cs:50-53 | It requests vibration on the current device only when the category is not keyboard and some joypad is connected. Nothing else changes. |
| GamepadController.GamepadControllerAutoload.StopControllerVibration | Godot-XTension-Pack/src/Autoload/Input/GamedpadControllerAutoload.cs:55-58 | It stops vibration under the same gate. Nothing else changes. |
| GamepadController.DisconnectSilencesVibration | Godot-XTension-Pack/src/Autoload/Input/GamedpadControllerAutoload.cs:50-58 | After a disconnect, start/stop vibration requests nothing. |
| SoundPool.ClampPoolSize | Godot-XTension-Pack/src/Autoload/Audio/SoundPoolAutoload.cs:8-14 | The setter stores max(1, value). |
| SoundPool.SoundPoolAutoload.constructor | Godot-XTension-Pack/src/Autoload/Audio/SoundPoolAutoload.cs:7-16 | The pool starts empty with the default size 16. |
| SoundPool.SoundPoolAutoload.SetupPool | Godot-XTension-Pack/src/Autoload/Audio/SoundPoolAutoload.cs:149-160 | Inside the tree, it replaces the pool with exactly PoolPlayersNumber fresh stopped players named PoolAudioStreamPlayer1..N, in order, on the Master bus. Outside the tree it does nothing. |
| SoundPool.SoundPoolAutoload.SetPoolPlayersNumber | Godot-XTension-Pack/src/Autoload/Audio/SoundPoolAutoload.cs:8-14 | It stores the clamped size, which is always ≥ 1, and rebuilds the pool to that size. |
| SoundPool.PlayerNamesDistinct | Godot-XTension-Pack/src/Autoload/Audio/SoundPoolAutoload.cs:154-155 | Distinct pool positions get distinct player names. |
| SoundPool.FirstFree | Godot-XTension-Pack/src/Autoload/Audio/SoundPoolAutoload.cs:161-167 | The first player that is neither playing nor paused, or none iff there is no such player. |
| SoundPool.SoundPoolAutoload.NextAvailableAudioStreamPlayer | Godot-XTension-Pack/src/Autoload/Audio/SoundPoolAutoload.cs:161-167 | Null iff every player is busy, and otherwise the player at the first free position. |
| SoundPool.SoundPoolAutoload.Play | Godot-XTension-Pack/src/Autoload/Audio/SoundPoolAutoload.cs:28-35 | With no free player nothing changes. Otherwise only the first free player is reconfigured (stream, bus, volume) and started. |
| SoundPool.SoundPoolAutoload.PlayWithPitch | Godot-XTension-Pack/src/Autoload/Audio/SoundPoolAutoload.cs:44-51 | The same as Play, and the chosen player also gets the pitch. |
| SoundPool.SoundPoolAutoload.PlayWithPitchRange | Godot-XTension-Pack/src/Autoload/Audio/SoundPoolAutoload.cs:64-71 | The same as Play, and the chosen player's pitch lies between the two bounds, in whichever order they are given. |
| SoundPool.SoundPoolAutoload.PlayOnFreePlayer | Godot-XTension-Pack/src/Autoload/Audio/SoundPoolAutoload.cs:28-71 | The shared body of the Play* methods: nothing changes without a free player, and otherwise only the first free player is reconfigured. |
| SoundPool.SoundPoolAutoload.PlayRandom | Godot-XTension-Pack/src/Autoload/Audio/SoundPoolAutoload.cs:79-120 | It returns without playing if the list is empty, the bus is muted or the bus does not exist. Otherwise it plays the picked stream like Play. |
| SoundPool.SoundPoolAutoload.StopStreamsFromBus | Godot-XTension-Pack/src/Autoload/Audio/SoundPoolAutoload.cs:129-136 | An unknown bus changes nothing. Otherwise exactly the players whose bus matches, ignoring case, stop, and all others are untouched. |
| MusicManager.Other | Godot-XTension-Pack/src/Autoload/Audio/MusicManager.cs:51 | The crossfade target is the other of the two players. |
| MusicManager.PlayStreamOn | Godot-XTension-Pack/src/Autoload/Audio/MusicManager.cs:89-95 | The player gets the stream and plays; its name, bus and volume stay. |
| MusicManager.ChangedStreamEvents | Godot-XTension-Pack/src/Autoload/Audio/MusicManager.cs:48-55 | ChangedStream fires iff a previous stream existed. |
| MusicManager.AddsWithoutCollision | Godot-XTension-Pack/src/Autoload/Audio/MusicManager.cs:105-108 | A batch of fresh, distinct names never throws, and the bank becomes the old bank plus those entries. |
| MusicManager.RemovesAreSetDifference | Godot-XTension-Pack/src/Autoload/Audio/MusicManager.cs:131-133 | Removing a batch of names leaves the bank minus that set. |
| MusicManager.MusicManager.constructor | Godot-XTension-Pack/src/Autoload/Audio/MusicManager.cs:161-165 | The bank starts empty, the players are the Main and Secondary players on the Music bus, and Main is current. |
| MusicManager.MusicManager.PlayStream | Godot-XTension-Pack/src/Autoload/Audio/MusicManager.cs:89-95 | Only that player changes (its stream is set and it plays), and StartedStream fires. |
| MusicManager.MusicManager.PlayMusic | Godot-XTension-Pack/src/Autoload/Audio/MusicManager.cs:43-79 | An unknown name reports an error and changes nothing. Re-requesting the playing stream is a no-op. Otherwise ChangedStream (if there was a stream) then StartedStream fire. With crossfade, the other player starts inaudible and the switch of current is queued; without it, the current player restarts. |
| MusicManager.MusicManager.CompleteCrossfade | Godot-XTension-Pack/src/Autoload/Audio/MusicManager.cs:66 | The final tween callback switches the current player to the queued target. |
| MusicManager.CrossfadeSwitchesPlayer | Godot-XTension-Pack/src/Autoload/Audio/MusicManager.cs:50-68 | A crossfade followed by its final callback leaves the other player current and playing the requested stream. |
| MusicManager.MusicManager.OnFinishedAudioStreamPlayer | Godot-XTension-Pack/src/Autoload/Audio/MusicManager.cs:174-176 | The `Finished` signal handler: the finished player stops playing and keeps its stream, and FinishedStream fires with that stream. The other player, the bank, the current player and the queued switches are unchanged. |
| MusicManager.ReplayAfterFinished | Godot-XTension-Pack/src/Autoload/Audio/MusicManager.cs:43-79 | Requesting a track again after it played to its end restarts it: the no-op test fails once `Playing` is cleared, so the current player plays the stream again and StartedStream is the last event. |
| MusicManager.MusicManager.AddStreamToMusicBank | Godot-XTension-Pack/src/Autoload/Audio/MusicManager.cs:119-122 | A duplicate name throws before the event and changes nothing. Otherwise name→stream is inserted and then AddedMusicToBank fires. |
| MusicManager.MusicManager.AddStreamsToMusicBank | Godot-XTension-Pack/src/Autoload/Audio/MusicManager.cs:105-108 | It applies the single add to each entry in order, stopping at the first throw. |
| MusicManager.MusicManager.RemoveStreamMusicFromBank | Godot-XTension-Pack/src/Autoload/Audio/MusicManager.cs:142-145 | It deletes the name, and fires RemovedMusicFromBank only if the name was present. |
| MusicManager.MusicManager.RemoveStreamsFromBank | Godot-XTension-Pack/src/Autoload/Audio/MusicManager.cs:131-133 | It applies the single remove to each name in order. |
| MusicManager.MusicManager.RemoveStreamMusicFromBankByStream | Godot-XTension-Pack/src/Autoload/Audio/MusicManager.cs:154-159 | With no entry holding the stream it is a no-op. Otherwise one entry holding it is removed and its removal event fires. |
| FileReader.ParseLine | Godot-XTension-Pack/src/Utilities/FileReader.cs:118-127 | Each field is trimmed and then normalised, in order. |
| FileReader.ParseFields | Godot-XTension-Pack/src/Utilities/FileReader.cs:118-127 | The per-field loop returns ParseLine. |
| FileReader.KeptLines | Godot-XTension-Pack/src/Utilities/FileReader.cs:110-127 | Lines that are empty or a single empty field are skipped, so every kept line has a field. |
| FileReader.KeptLinesAreParsedLines | Godot-XTension-Pack/src/Utilities/FileReader.cs:110-127 | The kept lines are exactly the parsed lines that are not skipped, in order. |
| FileReader.MultiFieldLinesAreKept | Godot-XTension-Pack/src/Utilities/FileReader.cs:110-127 | A line of two or more fields is never skipped. |
| FileReader.LoadCSV | Godot-XTension-Pack/src/Utilities/FileReader.cs:85-141 | The read loop returns the kept, parsed lines without a trailing single-empty-field row. |
| FileReader.KeepParsedLines | Godot-XTension-Pack/src/Utilities/FileReader.cs:108-130 | The read loop returns exactly the kept, parsed lines in order. |
| FileReader.RowDictionaryKeys | Godot-XTension-Pack/src/Utilities/FileReader.cs:161-168 | A row dictionary has exactly the header names as keys. |
| FileReader.RowDictionaryValue | Godot-XTension-Pack/src/Utilities/FileReader.cs:166-167 | Each header maps to the row's field in that column (the last one wins for a repeated header), or to null for a missing column of a short row. |
| FileReader.FieldsToDictionary | Godot-XTension-Pack/src/Utilities/FileReader.cs:166-167 | The header loop builds the row dictionary whose keys and values the two lemmas above describe. |
| FileReader.RowsUntilOversized | Godot-XTension-Pack/src/Utilities/FileReader.cs:155-170 | At most one dictionary per row. |
| FileReader.RowsUntilOversizedMeaning | Godot-XTension-Pack/src/Utilities/FileReader.cs:155-170 | Rows before the first row longer than the header become dictionaries, in order. That row and all later ones are dropped, and all rows are converted iff none is oversized. |
| FileReader.LoadCSVAsDictionary | Godot-XTension-Pack/src/Utilities/FileReader.cs:148-173 | Empty content gives an empty result. Otherwise the first row is the header, the later rows go through RowsUntilOversized, and an error is reported iff some row is oversized. |
| FiniteStateMachine.MachineState.constructor | Godot-XTension-Pack/src/Components/FiniteStateMachine/MachineState.cs:15 | A new state has no FSM back-reference until the driver registers it. |
| FiniteStateMachine.MachineState.Ready | Godot-XTension-Pack/src/Components/FiniteStateMachine/MachineState.cs:17-19 | The base hook has an empty body and changes nothing. The driver records each call in its log, which fixes the order of the hook calls. |
| FiniteStateMachine.MachineState.Enter | Godot-XTension-Pack/src/Components/FiniteStateMachine/MachineState.cs:21-23 | The base hook has an empty body and changes nothing. The driver records each call in its log, which fixes the order of the hook calls. |
| FiniteStateMachine.MachineState.Exit | Godot-XTension-Pack/src/Components/FiniteStateMachine/MachineState.cs:25-27 | The base hook has an empty body and changes nothing. The driver records each call in its log, which fixes the order of the hook calls. |
| FiniteStateMachine.MachineState.HandleInput | Godot-XTension-Pack/src/Components/FiniteStateMachine/MachineState.cs:29-31 | The base hook has an empty body and changes nothing. The driver records each call in its log, which fixes the order of the hook calls. |
| FiniteStateMachine.MachineState.PhysicsUpdate | Godot-XTension-Pack/src/Components/FiniteStateMachine/MachineState.cs:33-35 | The base hook has an empty body and changes nothing. The driver records each call in its log, which fixes the order of the hook calls. |
| FiniteStateMachine.MachineState.Update | Godot-XTension-Pack/src/Components/FiniteStateMachine/MachineState.cs:37-39 | The base hook has an empty body and changes nothing. The driver records each call in its log, which fixes the order of the hook calls. |
| FiniteStateMachine.Transition.constructor | Godot-XTension-Pack/src/Components/FiniteStateMachine/transitions/Transition.cs:6-12 | FromState, ToState and Parameters start null. The guard is given, and ALWAYS is the base class's default. |
| FiniteStateMachine.Transition.Neutral | Godot-XTension-Pack/src/Components/FiniteStateMachine/transitions/NeutralTransition.cs:7-10 | A NeutralTransition has the always-true guard and blank scratch fields. |
| FiniteStateMachine.Transition.ShouldTransition | Godot-XTension-Pack/src/Components/FiniteStateMachine/transitions/Transition.cs:11 | The guard's answer on the scratch fields FromState, ToState and Parameters. NeutralTransition's is always true, which UnregisteredEdgeChanges uses. |
| FiniteStateMachine.Transition.Bind | Godot-XTension-Pack/src/Components/FiniteStateMachine/FiniteStateMachineComponent.cs:104-106 | Sets FromState, ToState and Parameters to the given values, as RunTransition does before asking the guard. |
| FiniteStateMachine.Transition.OnTransition | Godot-XTension-Pack/src/Components/FiniteStateMachine/transitions/Transition.cs:12 | The base effect has an empty body. The driver records the call as OnTransitionCalled, first in the allowed branch. |
| FiniteStateMachine.StackAfterPush | Godot-XTension-Pack/src/Components/FiniteStateMachine/FiniteStateMachineComponent.cs:166-181 | With the stack disabled or capacity ≤ 0 nothing changes. Below capacity it appends. When full it flushes to [state] or evicts the oldest, and the size never exceeds capacity. |
| FiniteStateMachine.StackEvents | Godot-XTension-Pack/src/Components/FiniteStateMachine/FiniteStateMachineComponent.cs:170-180 | An enabled push always ends with StackPushed carrying the new stack. A flush is preceded by StackFlushed of the emptied stack. |
| FiniteStateMachine.SpecificIsWildcardOnlyFromAny | Godot-XTension-Pack/src/Components/FiniteStateMachine/FiniteStateMachineComponent.cs:225-232 | The specific and wildcard keys coincide iff the trimmed source-state name is "Any". |
| FiniteStateMachine.FiniteStateMachineComponent.constructor | Godot-XTension-Pack/src/Components/FiniteStateMachine/FiniteStateMachineComponent.cs:22-34 | The registries and stack start empty, and the exported settings and the initial state are stored. |
| FiniteStateMachine.FiniteStateMachineComponent.GetStateByName | Godot-XTension-Pack/src/Components/FiniteStateMachine/FiniteStateMachineComponent.cs:155-160 | Null iff the name is not a key, and otherwise the registered state. |
| FiniteStateMachine.FiniteStateMachineComponent.LastState | Godot-XTension-Pack/src/Components/FiniteStateMachine/FiniteStateMachineComponent.cs:162-164 | Null iff the history stack is empty, and otherwise its last element. |
| FiniteStateMachine.FiniteStateMachineComponent.StateExists | Godot-XTension-Pack/src/Components/FiniteStateMachine/FiniteStateMachineComponent.cs:143-145 | True iff the name is a key of the state registry. StatesAfterKeys says which keys registration adds. |
| FiniteStateMachine.FiniteStateMachineComponent.StateExistsFor | Godot-XTension-Pack/src/Components/FiniteStateMachine/FiniteStateMachineComponent.cs:140-142 | True iff the state's name is a key, by name and not by identity. ChangeStateTo's UnknownState outcome is exactly its negation. |
| FiniteStateMachine.FiniteStateMachineComponent.CurrentStateIs | Godot-XTension-Pack/src/Components/FiniteStateMachine/FiniteStateMachineComponent.cs:128-130 | The trimmed, lower-cased name equals the current state's. CurrentStateIsNot is proved to be its negation over every listed name. |
| FiniteStateMachine.FiniteStateMachineComponent.CurrentStateIsState | Godot-XTension-Pack/src/Components/FiniteStateMachine/FiniteStateMachineComponent.cs:132-134 | The state is the current state itself, by reference. ChangeStateTo's AlreadyCurrent outcome is exactly this case for a registered name. |
| FiniteStateMachine.FiniteStateMachineComponent.CurrentStateIsNot | Godot-XTension-Pack/src/Components/FiniteStateMachine/FiniteStateMachineComponent.cs:136-138 | True iff none of the names matches the current state (trimmed, case-insensitively). An empty array is true without looking at the current state, so only a non-empty one needs a current state. |
| FiniteStateMachine.FiniteStateMachineComponent.BuildTransitionName | Godot-XTension-Pack/src/Components/FiniteStateMachine/FiniteStateMachineComponent.cs:225-232 | The specific key if registered, otherwise the wildcard key. Unless the source is "Any", the specific key is chosen iff it is registered. |
| FiniteStateMachine.FiniteStateMachineComponent.AddStateToDictionary | Godot-XTension-Pack/src/Components/FiniteStateMachine/FiniteStateMachineComponent.cs:234-238 | A duplicate name throws in Add and changes nothing. Otherwise the state is keyed by name, gets its FSM back-reference, and then has Ready called once. |
| FiniteStateMachine.FiniteStateMachineComponent.InitializeStateNodes | Godot-XTension-Pack/src/Components/FiniteStateMachine/FiniteStateMachineComponent.cs:207-211 | It registers the found states in order, stopping at the first duplicate name. All states before it are registered, wired and readied. |
| FiniteStateMachine.FiniteStateMachineComponent.RegisterFoundState | Godot-XTension-Pack/src/Components/FiniteStateMachine/FiniteStateMachineComponent.cs:208-209 | One step of the foreach: it throws iff the name is already a key. Otherwise the registered prefix grows by that state, wired and readied. The current state, transitions and stack stay. |
| FiniteStateMachine.RegisterStep | Godot-XTension-Pack/src/Components/FiniteStateMachine/FiniteStateMachineComponent.cs:208-209 | Adding a found state whose name is free extends the registered prefix by that state and its Ready call. It is a different object from every state registered before it. |
| FiniteStateMachine.FiniteStateMachineComponent.Ready | Godot-XTension-Pack/src/Components/FiniteStateMachine/FiniteStateMachineComponent.cs:38-51 | After registration, a missing initial state logs an error. Otherwise the handlers are subscribed and the initial state is entered. |
| FiniteStateMachine.StatesAfterKeys | Godot-XTension-Pack/src/Components/FiniteStateMachine/FiniteStateMachineComponent.cs:207-238 | Registration adds exactly the found names as keys, and each key stays equal to its state's name. |
| FiniteStateMachine.StatesAfterFinds | Godot-XTension-Pack/src/Components/FiniteStateMachine/FiniteStateMachineComponent.cs:207-238 | When no name collides, each found state is filed under its own name. |
| FiniteStateMachine.ReadyEvents | Godot-XTension-Pack/src/Components/FiniteStateMachine/FiniteStateMachineComponent.cs:237 | Ready is called once for each registered state, in order. |
| FiniteStateMachine.FiniteStateMachineComponent.RegisterTransition | Godot-XTension-Pack/src/Components/FiniteStateMachine/FiniteStateMachineComponent.cs:221-223 | It registers under the class name. A name already present (also one cached as neutral) throws and changes nothing. |
| FiniteStateMachine.FiniteStateMachineComponent.RegisterTransitions | Godot-XTension-Pack/src/Components/FiniteStateMachine/FiniteStateMachineComponent.cs:213-216 | It registers the batch in order, up to the first collision. |
| FiniteStateMachine.TransitionsAfterSnoc | Godot-XTension-Pack/src/Components/FiniteStateMachine/FiniteStateMachineComponent.cs:213-223 | Registering one more transition extends the map under its class name. |
| FiniteStateMachine.FiniteStateMachineComponent.RaiseStateChanged | Godot-XTension-Pack/src/Components/FiniteStateMachine/FiniteStateMachineComponent.cs:243-245 | StateChanged fires, and the subscribed handler clears IsTransitioning. |
| FiniteStateMachine.FiniteStateMachineComponent.RaiseStateChangeFailed | Godot-XTension-Pack/src/Components/FiniteStateMachine/FiniteStateMachineComponent.cs:247-249 | StateChangeFailed fires, and the subscribed handler clears IsTransitioning. |
| FiniteStateMachine.FiniteStateMachineComponent.EnterState | Godot-XTension-Pack/src/Components/FiniteStateMachine/FiniteStateMachineComponent.cs:147-149 | Enter is called on the state and nothing else changes. |
| FiniteStateMachine.FiniteStateMachineComponent.ExitState | Godot-XTension-Pack/src/Components/FiniteStateMachine/FiniteStateMachineComponent.cs:151-153 | Exit is called with the incoming state as argument, and nothing else changes. |
| FiniteStateMachine.FiniteStateMachineComponent.PushStateToStack | Godot-XTension-Pack/src/Components/FiniteStateMachine/FiniteStateMachineComponent.cs:166-181 | The stack becomes StackAfterPush and stays within capacity. StackEvents are raised. |
| FiniteStateMachine.FiniteStateMachineComponent.SetAllStatesEnabled | Godot-XTension-Pack/src/Components/FiniteStateMachine/FiniteStateMachineComponent.cs:114-116 | Every registered state ends up with the given enabled flag. |
| FiniteStateMachine.FiniteStateMachineComponent.ChangeStateTo | Godot-XTension-Pack/src/Components/FiniteStateMachine/FiniteStateMachineComponent.cs:54-66 | An unregistered name only logs an error. Requesting the current state, or having no current state, is a silent no-op. If the guard allows it (Changed), the transition cached under the built name (a fresh NeutralTransition when none was registered) gets the scratch fields, the target becomes current, the stack is StackAfterPush, the log gets the full ordered protocol and every state ends enabled. If the guard refuses (Refused), only StateChangeFailed is logged and the current state, the stack and every state object are unchanged. |
| FiniteStateMachine.FiniteStateMachineComponent.ChangeStateToName | Godot-XTension-Pack/src/Components/FiniteStateMachine/FiniteStateMachineComponent.cs:68-78 | An unknown key only logs an error. A null current state crashes with nothing changed. A trimmed, case-insensitive match of the current state is a no-op. Otherwise it moves to the registered state with the same Changed and Refused effects as ChangeStateTo. |
| FiniteStateMachine.FiniteStateMachineComponent.ChangeStateToType | Godot-XTension-Pack/src/Components/FiniteStateMachine/FiniteStateMachineComponent.cs:79-92 | Like the string form, and additionally a no-op while IsTransitioning is set. Otherwise it has the same Changed and Refused effects as ChangeStateTo. |
| FiniteStateMachine.FiniteStateMachineComponent.UnhandledInput | Godot-XTension-Pack/src/Components/FiniteStateMachine/FiniteStateMachineComponent.cs:183-186 | The input is forwarded only to the current state (a null current state crashes), and nothing else changes. |
| FiniteStateMachine.FiniteStateMachineComponent.PhysicsProcess | Godot-XTension-Pack/src/Components/FiniteStateMachine/FiniteStateMachineComponent.cs:188-190 | PhysicsUpdate is forwarded only to the current state, and nothing else changes. |
| FiniteStateMachine.FiniteStateMachineComponent.Process | Godot-XTension-Pack/src/Components/FiniteStateMachine/FiniteStateMachineComponent.cs:192-194 | Update is forwarded only to the current state, and nothing else changes. |
| FiniteStateMachine.FiniteStateMachineComponent.PrepareTransition | Godot-XTension-Pack/src/Components/FiniteStateMachine/FiniteStateMachineComponent.cs:96-106 | It sets IsTransitioning and resolves the name. An unregistered name caches a new NeutralTransition under it, and a registered one is reused. It then writes the scratch fields. |
| FiniteStateMachine.FiniteStateMachineComponent.TransitionNamed | Godot-XTension-Pack/src/Components/FiniteStateMachine/FiniteStateMachineComponent.cs:100-103 | It returns the transition stored under the name. An absent name first gets a new NeutralTransition with the always-true guard, and nothing else is stored. |
| FiniteStateMachine.FiniteStateMachineComponent.CompleteTransition | Godot-XTension-Pack/src/Components/FiniteStateMachine/FiniteStateMachineComponent.cs:108-120 | The allowed branch, in order: the effect, the push of `from`, Exit(from, to), every state disabled, the switch of the current state, every state enabled, StateChanged and Enter. |
| FiniteStateMachine.FiniteStateMachineComponent.ResolveTransition | Godot-XTension-Pack/src/Components/FiniteStateMachine/FiniteStateMachineComponent.cs:108-124 | The result is the guard's answer. A true answer runs the ordered change protocol. A false one appends only StateChangeFailed and leaves every state object untouched. |
| FiniteStateMachine.FiniteStateMachineComponent.RunTransition | Godot-XTension-Pack/src/Components/FiniteStateMachine/FiniteStateMachineComponent.cs:95-126 | Called without a current state, it crashes after setting IsTransitioning, with the log, transitions, stack and current state unchanged. Otherwise the map only grows under the resolved name, a true guard runs the full ordered protocol, and a false one fires only StateChangeFailed with nothing else changed. IsTransitioning ends cleared iff the handlers are subscribed. |
| FiniteStateMachine.FiniteStateMachineComponent.ExecuteTransition | Godot-XTension-Pack/src/Components/FiniteStateMachine/FiniteStateMachineComponent.cs:98-125 | With a current state: the name is built from CurrentState and to, a missing entry is cached as a fresh NeutralTransition (which allows the change), and the guard's answer decides between the protocol and StateChangeFailed. |
| FiniteStateMachine.UnregisteredEdgeChanges | Godot-XTension-Pack/src/Components/FiniteStateMachine/FiniteStateMachineComponent.cs:100-108 | A change along an edge with no registered transition always succeeds: the target becomes current, and an enabled stack ends with the old current state. |

## Left out

- Floating point: the model does not compute distances, volume in dB, pitch values or tween
  timing. The nearest/farthest searches take distance as an abstract function. The crossfade's
  volume tweens are reduced to their final callback (`CompleteCrossfade`).
- StringExtension.DecimalFromHex: the source accumulates in `float` and rounds with `Ceil`. The
  model accumulates exactly, so it agrees with the source only for values below 2^24. Above that
  the source can be off, and the model does not capture this, nor the cast of large values to
  `int`. Nor does it capture inputs of more than 32 digits: from the 33rd digit on,
  `Mathf.Pow(16f, power)` overflows to infinity, so the sum becomes infinite (or NaN for a `0`
  digit), and the source's final cast yields no meaningful value.
- RoundTrips.HexadecimalRoundTrip: holds in the model for every n. The source's float
  accumulation makes it hold only below 2^24.
- Case-insensitive comparisons use ordinal ASCII lower-casing. The source uses the current
  culture (`CurrentCultureIgnoreCase`, `ToLower`), which the model does not reproduce.
- File and engine I/O. Reading the file (`FileAccess`, `GetCsvLine`), resolving the path and
  choosing the delimiter are not modelled; `LoadCSV` takes the lines read. `IsValidInt`/`IsValidFloat`
  normalisation is the `normalize` parameter.
- Engine queries are parameters:
  - `GetJoyGuid`, `GetJoyName` and `GetConnectedJoypads`;
  - `BusExists`, `GetBusIndex` and `IsBusMute`;
  - `RandomElement`, and the random pitch in a pitch range;
  - whether the node is inside the tree.
- `Input.StartJoyVibration`/`StopJoyVibration` calls are recorded as requests, not performed.
- AudioStreamPlayer's `PlayWithPitch`/`PlayWithPitchRange` extensions are not part of this model.
  They are assumed to set the stream, bus, volume and pitch, and then play. `Stop` is modelled as
  clearing the playing flag.
- SoundPool.SoundPoolAutoload.StopStreamsFromBus: the `int` overload only looks the bus name up
  (`AudioServer.GetBusName`) and forwards to the string overload, so the model has only the
  string form.
- MusicManager.MusicManager.RemoveStreamMusicFromBankByStream: .NET dictionary enumeration order
  is not modelled. The model removes some entry holding the stream, not necessarily the first.
- MusicManager.MusicManager.PlayMusic: an `AudioStream` is a value identified by its resource
  path, so the no-op test and `RemoveStreamMusicFromBankByStream` compare streams by value. The
  source compares resource objects by reference, so two distinct objects loaded from one path are
  equal here but not there.
- MusicManager.MusicManager.AddStreamsToMusicBank: the source takes a `Dictionary`. The model takes
  a sequence of name/stream pairs with distinct names, in enumeration order.
- MusicManager.MusicManager.PlayMusic: the crossfade duration and the tween objects are not
  modelled. A pending switch is a queued player id, which `CompleteCrossfade` applies.
- Overridden state hooks, guards and effects: the base classes' hooks have empty bodies, so the
  model only records in the log that each one was called. A guard is an abstract function of the
  transition's scratch fields.
- `LockStateMachine`/`UnlockStateMachine` are left out: they act only through the node's
  `ProcessMode`.
- Per-frame scheduling and `@event.Dispose()` in `_UnhandledInput` are left out.
- Scene-graph discovery of states is left out; `Ready` takes the found states as a list.
- The `StateEntered` and `StateFinished` events of `MachineState` are declared but never raised,
  so they are not modelled.
- FiniteStateMachine.FiniteStateMachineComponent.ChangeStateTo: existence is checked by name and
  identity by reference, as in the source. A foreign state object whose name is registered can
  therefore become current. This is modelled as written.
- FiniteStateMachine.FiniteStateMachineComponent.RunTransition: IsTransitioning is cleared only
  through the subscribed handlers. Before an initial state exists it stays set, as in the source.
- FiniteStateMachine.FiniteStateMachineComponent.CurrentStateIs: requires a current state. In the
  source a null `CurrentState` makes it throw, and a predicate cannot model the crash.
  `ChangeStateToName` and `ChangeStateToType`, which call it, model that crash as `Crashed`.
- Node2DExtension.GetAbsoluteZIndex: the running `int` sum is unbounded in the model, because Godot
  limits ZIndex to ±4096.
- Float overloads are left out: `IsBetween(float)`, `Factorial(float)`, PrettyNumber and the
  other float helpers of both `MathExtension` files.
- The byte helpers `Max`, `Min` and `GetBytes` are left out: they are single library calls.
- NodeExtension: a tree is an immutable value, and a node is addressed by a path of child indices.
  Parent links and node identity (two equal subtrees) are not modelled.
