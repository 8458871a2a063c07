# Register store of the Helix editor, in Dafny

This project models `Registers` from helix-view/src/register.rs: the editor's
key-value store that saves lists of text values under one-character names.
Most names are plain slots. Three names are special and are dispatched before
the stored map is consulted:

- `_` (black hole) reads as an empty list and accepts writes and pushes without storing anything;
- `#` (selection indices) reads as "1", "2", …, "N" for the N selections of the current view, and refuses writes and pushes;
- `.` (selection contents) reads as the text under each selection, in selection order, and refuses writes and pushes.

Every other character is a plain register. This includes `*`, `+` and `%`.

Layout:

- `wrappers.dfy` (module `Wrappers`): the `Option` type.
- `text.dfy` (module `Text`): the two pieces of Rust's standard library the store relies on.
  - `usize::to_string` is modelled as `Decimal`, with its inverse `ParseDecimal` and round trips in both directions.
  - The first item of `str::lines` is modelled as `FirstLine`.
- `register.dfy` (module `Register`): the store.
  - The stored map is `Store = map<char, seq<string>>`, the Rust `HashMap<char, Vec<String>>`.
  - `read`, `first`, `last` and `iter_preview` only read, so they are pure functions of the map and the view: `Read`, `First`, `Last` and `IterPreview`.
  - `write`, `push`, `clear` and `remove` update the map in place. They are the methods of class `Registers`, which holds the map as its field `inner`.
  - Each mutating method is specified by a pure transition function (`Written`, `Pushed`, `Removed`) that returns the status and the new map. The lemmas relate these functions to `Read`.
  - The store invariant `NoSpecialKeys` says the map never holds an entry for `_`, `#` or `.`. It is `Registers.Valid()` and every transition function preserves it.

The editor is reduced to a `View`: the list of text fragments under the
current view's selections. The selection count is the length of that list.

## Model

| member | source | states |
|---|---|---|
| `Register.Read` | helix-view/src/register.rs:26-48 | the result is None exactly for a plain name without an entry; `_` reads empty, `#` reads as many values as there are selections, `.` reads the fragments, and a stored plain name reads its list |
| `Register.SelectionIndicesCount` | helix-view/src/register.rs:29-37 | the i-th value of `#` is a canonical decimal numeral denoting i + 1, and no two values are equal |
| `Register.ThreeSelectionIndices` | helix-view/src/register.rs:29-37 | with three selections `#` reads exactly ["1", "2", "3"] |
| `Register.SpecialReadIgnoresStore` | helix-view/src/register.rs:27-42 | reading `_`, `#` or `.` does not depend on the stored map |
| `Register.First` | helix-view/src/register.rs:72-74 | `first` is the first value `read` yields, and None when `read` is None or empty |
| `Register.Last` | helix-view/src/register.rs:76-78 | `last` is the last value `read` yields, and None when `read` is None or empty |
| `Register.Written` | helix-view/src/register.rs:50-59 | write fails exactly on `#` and `.`; on `_`, `#` and `.` the store is unchanged; on a plain name that entry becomes exactly the given list; no other entry changes; the invariant is kept |
| `Register.Pushed` | helix-view/src/register.rs:61-70 | push fails exactly on `#` and `.`; on `_`, `#` and `.` the store is unchanged; on a plain name the value is appended to the stored list, or to a new empty list; no other entry changes; the invariant is kept |
| `Register.Removed` | helix-view/src/register.rs:106-111 | remove returns true exactly when the name is plain and had an entry; the special names leave the store unchanged; afterwards a plain name has no entry; no other entry changes |
| `Register.ReadAfterWrite` | helix-view/src/register.rs:43-58 | after a write to a plain name, reading it gives exactly the written list; every other read is unchanged |
| `Register.ReadAfterPush` | helix-view/src/register.rs:43-70 | after a push to a plain name, reading it gives the earlier list (or the empty list) followed by the value; every other read is unchanged |
| `Register.LastAfterPush` | helix-view/src/register.rs:61-78 | after a push to a plain name, `last` gives the pushed value |
| `Register.ReadAfterRemove` | helix-view/src/register.rs:43-46 | after removing a plain name, reading it gives None; every other read is unchanged |
| `Register.PushesKeepOrder` | helix-view/src/register.rs:61-70 | pushing values one by one leaves the register holding its old list followed by the values in push order; no other entry changes |
| `Register.WriteIsRemoveThenPushes` | helix-view/src/register.rs:50-70 | writing a nonempty list gives the same store as removing the register and then pushing each value |
| `Register.Summary` | helix-view/src/register.rs:84-87 | a register's preview is "<empty>" when it has no values or its first value is empty; otherwise it is a line-feed-free prefix of its first value |
| `Register.StoredPreviews` | helix-view/src/register.rs:81-90 | one (name, summary) pair per stored name, in iteration order |
| `Register.IterPreview` | helix-view/src/register.rs:80-100 | the preview has one pair per stored register plus three, and every stored name appears with its summary; the three fixed pairs for `_`, `#` and `.` come last |
| `Register.PreviewNamesDistinct` | helix-view/src/register.rs:80-100 | while the invariant holds, no name appears twice in the preview |
| `Register.PreviewOfEmptyStore` | helix-view/src/register.rs:80-104 | on the empty store left by `clear`, the preview is exactly the three fixed pairs |
| `Register.Registers.constructor` | helix-view/src/register.rs:16-19 | the default store is empty and satisfies the invariant |
| `Register.Registers.Write` | helix-view/src/register.rs:50-59 | returns the status of `Written` and updates the map to its store; keeps the invariant |
| `Register.Registers.Push` | helix-view/src/register.rs:61-70 | returns the status of `Pushed` and updates the map to its store; keeps the invariant |
| `Register.Registers.Clear` | helix-view/src/register.rs:102-104 | empties the map |
| `Register.Registers.Remove` | helix-view/src/register.rs:106-111 | returns the flag of `Removed` and updates the map to its store; keeps the invariant |
| `Text.Decimal` | helix-view/src/register.rs:35 | the rendering of `(i + 1).to_string()` is nonempty and all digits, with no leading zero except in "0" |
| `Text.DecimalRoundTrip` | helix-view/src/register.rs:35 | parsing the decimal rendering of n gives back n |
| `Text.ParseRoundTrip` | helix-view/src/register.rs:35 | rendering the number denoted by a canonical numeral gives back the numeral |
| `Text.DecimalInjective` | helix-view/src/register.rs:35 | two numbers have the same rendering exactly when they are equal |
| `Text.FirstLine` | helix-view/src/register.rs:86 | `s.lines().next()` is None exactly for the empty string; otherwise it is a prefix of s without a line feed, and all of s when s has no line feed |
| `Text.FirstLineOfTerminatedLine` | helix-view/src/register.rs:86 | a line ended by "\r\n" is returned without its line ending; so is a line ended by "\n" alone, unless the line itself ends in "\r" |

## Left out

- The `Editor`, `View` and `Document` types, the `current_ref!` macro and rope slicing are not modelled. The model reads the current selections as one `View` value holding the selected text fragments. The selection count is the number of fragments.
- `Cow`, the boxed `ExactSizeIterator` and lifetimes are not modelled. `Read` returns a `seq<string>`, whose length is the iterator's exact size.
- Error messages from `anyhow` are not modelled. An error is the single status `Unsupported`, and the model does not say whether writing or pushing was refused.
- The iteration order of the `HashMap` is unspecified. `IterPreview` therefore takes that order as a parameter: any list of the stored names that has no repeats. Its contract speaks of membership and counts, never of positions among the stored pairs.
- `Text.FirstLine` follows the current documented behaviour of `str::lines`. In older Rust releases a final line without a line feed also lost a trailing "\r"; that older behaviour is not modelled.
- Clipboard-backed registers (`*`, `+`), a document-path register (`%`) and reversed internal storage are not modelled. This version of register.rs has none of them, so `*`, `+` and `%` are plain registers here.
- The preview uses the first line of a register's first value, as the code does (`values.first()`). It does not use the most recently pushed value.
- Concurrency and allocation are not modelled. The store is used from a single thread and every operation runs to completion.
