/**
 * Next-ID assignment of the image stager: the new file is named after one
 * more than the largest number already used as a file name (extension
 * stripped) in the watched folder, or 1 when there is none.
 */
module Numbering {
  import opened Wrappers
  import opened PyText
  import opened NtPath

  /** An entry of the listing whose stem is a decimal numeral of value `k`. */
  predicate NumberedAs(entry: string, k: nat) {
    IsDecimalString(Stem(entry)) && ParseDecimal(Stem(entry)) == k
  }

  /** The number an entry contributes: one number for a decimal stem, none otherwise. */
  function Contribution(entry: string): seq<nat> {
    var stem := Stem(entry);
    if IsDecimalString(stem) then [ParseDecimal(stem)] else []
  }

  /** `f` applied to every element of `xs`, the results concatenated in order. */
  function ConcatMap<T>(xs: seq<T>, f: T -> seq<nat>): seq<nat> {
    if xs == [] then [] else ConcatMap(xs[..|xs| - 1], f) + f(xs[|xs| - 1])
  }

  lemma {:induction false} ConcatMapAppend<T>(a: seq<T>, b: seq<T>, f: T -> seq<nat>)
    ensures ConcatMap(a + b, f) == ConcatMap(a, f) + ConcatMap(b, f)
    decreases |b|
  {
    if b == [] {
      assert a + b == a;
    } else {
      var ab := a + b;
      assert ab[..|ab| - 1] == a + b[..|b| - 1];
      assert ab[|ab| - 1] == b[|b| - 1];
      ConcatMapAppend(a, b[..|b| - 1], f);
    }
  }

  lemma ConcatMapSingleton<T>(x: T, f: T -> seq<nat>)
    ensures ConcatMap([x], f) == f(x)
  {
    assert [x][..0] == [];
  }

  /** The numbers used as stems in the listing, in listing order. */
  function NumericStems(listing: seq<string>): seq<nat> {
    ConcatMap(listing, Contribution)
  }

  /** The numbers collected are exactly those that some entry is numbered as. */
  lemma {:induction false} NumericStemsMembers(listing: seq<string>, k: nat)
    ensures k in NumericStems(listing) <==> exists i :: 0 <= i < |listing| && NumberedAs(listing[i], k)
  {
    if listing != [] {
      var init := listing[..|listing| - 1];
      NumericStemsMembers(init, k);
      if k in NumericStems(listing) && k !in NumericStems(init) {
        assert NumberedAs(listing[|listing| - 1], k);
      }
      if i :| 0 <= i < |listing| && NumberedAs(listing[i], k) {
        if i < |listing| - 1 {
          assert init[i] == listing[i];
        }
      }
    }
  }

  /** Collecting numbers distributes over concatenation of listings. */
  lemma NumericStemsAppend(a: seq<string>, b: seq<string>)
    ensures NumericStems(a + b) == NumericStems(a) + NumericStems(b)
  {
    ConcatMapAppend(a, b, Contribution);
  }

  /** The scan of lines 38-42: walk the listing, keep the value of every decimal stem. */
  method CollectNumbers(listing: seq<string>) returns (numbers: seq<nat>)
    ensures numbers == NumericStems(listing)
    ensures forall k :: k in numbers <==> exists i :: 0 <= i < |listing| && NumberedAs(listing[i], k)
  {
    numbers := [];
    for i := 0 to |listing|
      invariant numbers == NumericStems(listing[..i])
    {
      var name := SplitExt(listing[i]).0;
      if IsDecimalString(name) {
        numbers := numbers + [ParseDecimal(name)];
      }
      assert listing[..i + 1][..i] == listing[..i];
    }
    assert listing[..|listing|] == listing;
    forall k ensures k in numbers <==> exists i :: 0 <= i < |listing| && NumberedAs(listing[i], k) {
      NumericStemsMembers(listing, k);
    }
  }

  /** Python's `max` over a non-empty list. */
  function MaxOf(xs: seq<nat>): (m: nat)
    requires xs != []
    ensures m in xs
    ensures forall x :: x in xs ==> x <= m
  {
    if |xs| == 1 then xs[0]
    else
      var rest := MaxOf(xs[1..]);
      assert forall x :: x in xs ==> x == xs[0] || x in xs[1..];
      if xs[0] >= rest then xs[0] else rest
  }

  /** `max(current_numbers) + 1 if current_numbers else 1`. */
  function NextId(listing: seq<string>): (id: nat)
    ensures id >= 1
    ensures NumericStems(listing) == [] ==> id == 1
    ensures NumericStems(listing) != [] ==> id - 1 in NumericStems(listing)
    ensures forall k :: k in NumericStems(listing) ==> k < id
  {
    var numbers := NumericStems(listing);
    if numbers == [] then 1 else MaxOf(numbers) + 1
  }

  /** The new file name: the decimal ID followed by the source path's extension. */
  function NewName(listing: seq<string>, srcPath: string): string {
    DecimalString(NextId(listing)) + Extension(srcPath)
  }

  /** The new ID is 1 exactly when no entry is numbered, or every numbered entry is 0. */
  lemma NextIdIsOne(listing: seq<string>)
    ensures NextId(listing) == 1 <==> forall i, k: nat :: 0 <= i < |listing| && NumberedAs(listing[i], k) ==> k == 0
  {
    if NextId(listing) == 1 {
      forall i, k: nat | 0 <= i < |listing| && NumberedAs(listing[i], k) ensures k == 0 {
        NumericStemsMembers(listing, k);
      }
    } else {
      var k := NextId(listing) - 1;
      NumericStemsMembers(listing, k);
    }
  }

  /** The new ID is strictly greater than every numbered entry, and one more than some entry when any exists. */
  lemma NextIdAboveEveryEntry(listing: seq<string>)
    ensures forall i, k: nat :: 0 <= i < |listing| && NumberedAs(listing[i], k) ==> k < NextId(listing)
    ensures (exists i, k: nat :: 0 <= i < |listing| && NumberedAs(listing[i], k)) ==>
              exists i :: 0 <= i < |listing| && NumberedAs(listing[i], NextId(listing) - 1)
  {
    forall i, k: nat | 0 <= i < |listing| && NumberedAs(listing[i], k) ensures k < NextId(listing) {
      NumericStemsMembers(listing, k);
    }
    if i, k: nat :| 0 <= i < |listing| && NumberedAs(listing[i], k) {
      NextIdMinusOneIsUsed(listing, k);
    }
  }

  /** When some entry is numbered, some entry is numbered exactly one below the next ID. */
  lemma NextIdMinusOneIsUsed(listing: seq<string>, k: nat)
    requires exists i :: 0 <= i < |listing| && NumberedAs(listing[i], k)
    ensures exists i :: 0 <= i < |listing| && NumberedAs(listing[i], NextId(listing) - 1)
  {
    NumericStemsMembers(listing, k);
    var m: nat := NextId(listing) - 1;
    assert m in NumericStems(listing);
    NumericStemsMembers(listing, m);
  }

  /** Splitting the new name gives back the decimal ID and the source's own extension. */
  lemma NewNameRoundTrip(listing: seq<string>, srcPath: string)
    ensures SplitExt(NewName(listing, srcPath)) == (DecimalString(NextId(listing)), Extension(srcPath))
    ensures NumberedAs(NewName(listing, srcPath), NextId(listing))
  {
    var digits := DecimalString(NextId(listing));
    assert IsPlainName(digits) by {
      forall i | 0 <= i < |digits| ensures digits[i] != '.' && !IsSeparator(digits[i]) {
        assert '0' <= digits[i] <= '9';
      }
    }
    SplitExtOfPlainName(digits, Extension(srcPath));
    DecimalStringIsDecimal(NextId(listing));
    ParseDecimalString(NextId(listing));
  }

  /** The new name is not already in the listing. */
  lemma NewNameIsFresh(listing: seq<string>, srcPath: string)
    ensures NewName(listing, srcPath) !in listing
  {
    var name := NewName(listing, srcPath);
    NewNameRoundTrip(listing, srcPath);
    NextIdAboveEveryEntry(listing);
    forall i | 0 <= i < |listing| ensures listing[i] != name {
      assert !NumberedAs(listing[i], NextId(listing));
    }
  }

  /** An entry whose stem is not a decimal numeral does not change the next ID. */
  lemma UnnumberedEntryIgnored(listing: seq<string>, entry: string)
    requires !IsDecimalString(Stem(entry))
    ensures NumericStems(listing + [entry]) == NumericStems(listing)
    ensures NextId(listing + [entry]) == NextId(listing)
  {
    NumericStemsAppend(listing, [entry]);
    ConcatMapSingleton(entry, Contribution);
    assert Contribution(entry) == [];
  }

  /** Adding an entry numbered with the next ID raises the next ID by one. */
  lemma NextIdAfterNumberedEntry(listing: seq<string>, entry: string)
    requires NumberedAs(entry, NextId(listing))
    ensures NextId(listing + [entry]) == NextId(listing) + 1
  {
    NumericStemsAppend(listing, [entry]);
    ConcatMapSingleton(entry, Contribution);
    assert Contribution(entry) == [NextId(listing)];
    var after := NumericStems(listing + [entry]);
    assert after == NumericStems(listing) + [NextId(listing)];
    assert NextId(listing) in after;
    forall k | k in after ensures k <= NextId(listing) {
      assert k in NumericStems(listing) || k == NextId(listing);
    }
  }

  /** Once the new name is in the listing, the next ID is one higher. */
  lemma NextIdAfterStaging(listing: seq<string>, srcPath: string)
    ensures NextId(listing + [NewName(listing, srcPath)]) == NextId(listing) + 1
  {
    NewNameRoundTrip(listing, srcPath);
    NextIdAfterNumberedEntry(listing, NewName(listing, srcPath));
  }

  /** The IDs handed out when files with the given names arrive one at a time, in order. Each
      arrival is scanned together with the folder (it already sits there), and every rename is
      taken to succeed: the arrival's new name joins the listing before the next one arrives. */
  function AssignedIds(listing: seq<string>, arrivals: seq<string>): seq<nat>
    decreases |arrivals|
  {
    if arrivals == [] then []
    else
      var scanned := listing + [arrivals[0]];
      [NextId(scanned)] + AssignedIds(listing + [NewName(scanned, arrivals[0])], arrivals[1..])
  }

  /** Files with unnumbered names arriving one at a time get consecutive IDs. */
  lemma {:induction false} AssignedIdsAreConsecutive(listing: seq<string>, arrivals: seq<string>)
    requires forall i :: 0 <= i < |arrivals| ==> !IsDecimalString(Stem(arrivals[i]))
    ensures |AssignedIds(listing, arrivals)| == |arrivals|
    ensures forall i :: 0 <= i < |arrivals| ==> AssignedIds(listing, arrivals)[i] == NextId(listing) + i
    decreases |arrivals|
  {
    if arrivals != [] {
      var scanned := listing + [arrivals[0]];
      var name := NewName(scanned, arrivals[0]);
      UnnumberedEntryIgnored(listing, arrivals[0]);
      NewNameRoundTrip(scanned, arrivals[0]);
      NextIdAfterNumberedEntry(listing, name);
      AssignedIdsAreConsecutive(listing + [name], arrivals[1..]);
    }
  }

  /** Into a folder with no numbered entry, the first N arrivals are named 1..N. */
  lemma FreshFolderNumbersFromOne(listing: seq<string>, arrivals: seq<string>)
    requires NumericStems(listing) == []
    requires forall i :: 0 <= i < |arrivals| ==> !IsDecimalString(Stem(arrivals[i]))
    ensures |AssignedIds(listing, arrivals)| == |arrivals|
    ensures forall i :: 0 <= i < |arrivals| ==> AssignedIds(listing, arrivals)[i] == i + 1
  {
    var first := NextId(listing);
    assert first == 1;
    AssignedIdsAreConsecutive(listing, arrivals);
  }

  /** One entry of the scan as written: `None` when `int(name)` raises ValueError. */
  function EntryAsWritten(entry: string): (r: Option<seq<nat>>)
    ensures r.None? <==> DigitOnlyStem(entry)
    ensures r.Some? ==> r.value == Contribution(entry)
  {
    var name := Stem(entry);
    if !IsDigitString(name) then
      assert !IsDecimalString(name);
      Some([])
    else match IntOfDigits(name)
      case None => None
      case Some(k) => Some([k])
  }

  /** A stem that passes `isdigit` and not `isdecimal`. */
  predicate DigitOnlyStem(entry: string) {
    IsDigitString(Stem(entry)) && !IsDecimalString(Stem(entry))
  }

  /** Concatenation of the results of `f`, or `None` as soon as one of them is `None`. */
  function ConcatMapChecked<T>(xs: seq<T>, f: T -> Option<seq<nat>>): Option<seq<nat>> {
    if xs == [] then Some([])
    else match ConcatMapChecked(xs[..|xs| - 1], f)
      case None => None
      case Some(init) =>
        match f(xs[|xs| - 1])
        case None => None
        case Some(last) => Some(init + last)
  }

  lemma {:induction false} ConcatMapCheckedFails<T>(xs: seq<T>, f: T -> Option<seq<nat>>, g: T -> seq<nat>)
    requires forall x :: f(x).Some? ==> f(x).value == g(x)
    ensures ConcatMapChecked(xs, f).None? <==> exists i :: 0 <= i < |xs| && f(xs[i]).None?
    ensures ConcatMapChecked(xs, f).Some? ==> ConcatMapChecked(xs, f).value == ConcatMap(xs, g)
  {
    if xs != [] {
      var init := xs[..|xs| - 1];
      ConcatMapCheckedFails(init, f, g);
      assert forall i :: 0 <= i < |init| ==> init[i] == xs[i];
    }
  }

  /** The numbers of lines 38-42 as written: `isdigit` guards `int`, which raises ValueError
      (`None`) on a digit that is not decimal, such as a superscript two. */
  function NumbersAsWritten(listing: seq<string>): Option<seq<nat>> {
    ConcatMapChecked(listing, EntryAsWritten)
  }

  /** As written, the scan raises exactly when some stem passes `isdigit` without being decimal,
      and otherwise yields the same numbers as the decimal filter. */
  lemma NumbersAsWrittenFailsOnDigitOnlyStem(listing: seq<string>)
    ensures NumbersAsWritten(listing).None? <==> exists i :: 0 <= i < |listing| && DigitOnlyStem(listing[i])
    ensures NumbersAsWritten(listing).Some? ==> NumbersAsWritten(listing).value == NumericStems(listing)
  {
    ConcatMapCheckedFails(listing, EntryAsWritten, Contribution);
  }

  /** Any entry whose stem is digit-only, whatever its extension, makes the scan raise
      while the decimal filter ignores it. */
  lemma DigitOnlyEntryRaises(listing: seq<string>, name: string, ext: string)
    requires IsPlainName(name) && IsDigitString(name) && !IsDecimalString(name)
    requires ext == [] || IsExtension(ext)
    ensures NumbersAsWritten(listing + [name + ext]).None?
    ensures NumericStems(listing + [name + ext]) == NumericStems(listing)
  {
    var entry := name + ext;
    SplitExtOfPlainName(name, ext);
    var all := listing + [entry];
    assert all[|listing|] == entry;
    NumbersAsWrittenFailsOnDigitOnlyStem(all);
    UnnumberedEntryIgnored(listing, entry);
  }

  /** A file named with a superscript two, such as the one shown, makes the scan raise. */
  lemma SuperscriptStemRaises()
    ensures NumbersAsWritten(["\U{B2}.png"]).None?
    ensures NumericStems(["\U{B2}.png"]) == []
  {
    var name, ext := "\U{B2}", ".png";
    assert IsDigitOnlyChar(name[0]) && !IsDecimalChar(name[0]);
    assert IsPlainName(name) && IsDigitString(name) && !IsDecimalString(name);
    assert IsExtension(ext);
    assert name + ext == "\U{B2}.png";
    assert [] + [name + ext] == ["\U{B2}.png"];
    DigitOnlyEntryRaises([], name, ext);
  }
}
