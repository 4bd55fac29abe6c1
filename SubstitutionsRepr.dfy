/**
 * The Python representation of a file-system path plug's substitutions mask:
 * the two whole-mask names, or the set flags of the four-entry table joined by
 * " | ", and the `substitutions = ...` argument its serialisation adds when the
 * mask is not the default of every substitution.
 *
 * The flag values come from `Gaffer::Context`, whose header is not part of this
 * model: they are taken to be the single bits 1, 2, 4 and 8, with
 * `AllSubstitutions` their union and `NoSubstitutions` zero.
 */
module FileSystemPathPlugBinding {

  import Tokens

  const FrameSubstitutions: bv32 := 1
  const VariableSubstitutions: bv32 := 2
  const EscapeSubstitutions: bv32 := 4
  const TildeSubstitutions: bv32 := 8
  const NoSubstitutions: bv32 := 0
  const AllSubstitutions: bv32 := 15

  /** The plug's default mask: every substitution but the frame one. */
  const DefaultPlugSubstitutions: bv32 := AllSubstitutions & !FrameSubstitutions

  const Prefix: string := "Gaffer.Context.Substitutions."
  const Bar: string := " | "

  /** The flag table, in its fixed order; the null name that ends it is the end of these sequences. */
  const FlagCount: nat := 4

  function FlagValue(i: nat): bv32
    requires i < FlagCount
  {
    if i == 0 then FrameSubstitutions
    else if i == 1 then VariableSubstitutions
    else if i == 2 then EscapeSubstitutions
    else TildeSubstitutions
  }

  function FlagName(i: nat): string
    requires i < FlagCount
  {
    if i == 0 then "FrameSubstitutions"
    else if i == 1 then "VariableSubstitutions"
    else if i == 2 then "EscapeSubstitutions"
    else "TildeSubstitutions"
  }

  /** `mask & values[i]`: the mask has the flag of table entry `i`. */
  predicate HasFlag(mask: bv32, i: nat)
    requires i < FlagCount
  {
    mask & FlagValue(i) != 0
  }

  /** The Python name of table entry `i`. */
  function Qualified(i: nat): string
    requires i < FlagCount
  {
    Prefix + FlagName(i)
  }

  /** The entries among the first `n` whose flag `mask` has set, in table order. */
  function SetFlags(mask: bv32, n: nat): (r: seq<nat>)
    requires n <= FlagCount
    ensures forall k :: 0 <= k < |r| ==> r[k] < n
  {
    if n == 0 then []
    else SetFlags(mask, n - 1) + (if HasFlag(mask, n - 1) then [n - 1] else [])
  }

  /** The qualified names of table entries. */
  function NamesOf(ids: seq<nat>): (r: seq<string>)
    requires forall k :: 0 <= k < |ids| ==> ids[k] < FlagCount
    ensures |r| == |ids|
  {
    if ids == [] then [] else NamesOf(ids[..|ids| - 1]) + [Qualified(ids[|ids| - 1])]
  }

  /** Starts with 'G' and ends with 's', as every qualified name does: no separator on either side. */
  predicate Edged(t: string)
  {
    t != [] && t[0] == 'G' && t[|t| - 1] == 's'
  }

  lemma QualifiedEnds(i: nat)
    requires i < FlagCount
    ensures Edged(Qualified(i))
  {
  }

  /** Distinct entries have distinct names. */
  lemma QualifiedDistinct(i: nat, j: nat)
    requires i < FlagCount && j < FlagCount && i != j
    ensures Qualified(i) != Qualified(j)
  {
    assert Qualified(i)[|Prefix|..] == FlagName(i);
    assert Qualified(j)[|Prefix|..] == FlagName(j);
  }

  /** Every listed name is edged. */
  lemma {:induction false} NamesEdged(ids: seq<nat>)
    requires forall k :: 0 <= k < |ids| ==> ids[k] < FlagCount
    ensures forall k :: 0 <= k < |NamesOf(ids)| ==> Edged(NamesOf(ids)[k])
    decreases |ids|
  {
    if ids != [] {
      NamesEdged(ids[..|ids| - 1]);
      QualifiedEnds(ids[|ids| - 1]);
    }
  }

  /** What `substitutionsRepr( mask )` promises. */
  function Repr(mask: bv32): string
  {
    if mask == AllSubstitutions then Prefix + "AllSubstitutions"
    else if mask == NoSubstitutions then Prefix + "NoSubstitutions"
    else Tokens.Join(NamesOf(SetFlags(mask, FlagCount)), Bar)
  }

  /** `substitutionsRepr( substitutions )`. */
  method SubstitutionsRepr(mask: bv32) returns (r: string)
    ensures r == Repr(mask)
  {
    if mask == AllSubstitutions {
      return Prefix + "AllSubstitutions";
    } else if mask == NoSubstitutions {
      return Prefix + "NoSubstitutions";
    }
    r := JoinSetFlags(mask);
    ListedIsJoin(mask, FlagCount);
  }

  /** The text the loop has built after `n` entries: each set flag's name, after a separator unless it is the first. */
  function Listed(mask: bv32, n: nat): string
    requires n <= FlagCount
  {
    if n == 0 then ""
    else
      var prev := Listed(mask, n - 1);
      if !HasFlag(mask, n - 1) then prev
      else if prev == "" then Qualified(n - 1)
      else prev + Bar + Qualified(n - 1)
  }

  /** The loop of `substitutionsRepr` over the flag table, up to its null name. */
  method JoinSetFlags(mask: bv32) returns (r: string)
    ensures r == Listed(mask, FlagCount)
  {
    r := "";
    var i := 0;
    while i < FlagCount
      invariant 0 <= i <= FlagCount
      invariant r == Listed(mask, i)
    {
      if mask & FlagValue(i) != 0 {
        if |r| > 0 {
          r := r + Bar;
        }
        r := r + Qualified(i);
      }
      i := i + 1;
    }
  }

  /** The loop's text is the set flags' names joined by the separator. */
  lemma {:induction false} ListedIsJoin(mask: bv32, n: nat)
    requires n <= FlagCount
    ensures Listed(mask, n) == Tokens.Join(NamesOf(SetFlags(mask, n)), Bar)
    decreases n
  {
    if n > 0 {
      ListedIsJoin(mask, n - 1);
      var ids := SetFlags(mask, n - 1);
      if HasFlag(mask, n - 1) {
        assert SetFlags(mask, n) == ids + [n - 1];
        NamesSnoc(ids, n - 1);
        NamesEdged(ids);
        JoinEmptyIff(NamesOf(ids), Bar);
      } else {
        assert SetFlags(mask, n) == ids + [];
        assert ids + [] == ids;
      }
    }
  }

  lemma NamesSnoc(ids: seq<nat>, i: nat)
    requires forall k :: 0 <= k < |ids| ==> ids[k] < FlagCount
    requires i < FlagCount
    ensures NamesOf(ids + [i]) == NamesOf(ids) + [Qualified(i)]
    ensures Tokens.Join(NamesOf(ids + [i]), Bar) == if ids == [] then Qualified(i) else Tokens.Join(NamesOf(ids), Bar) + Bar + Qualified(i)
  {
    assert (ids + [i])[..|ids|] == ids;
    var ns := NamesOf(ids);
    assert (ns + [Qualified(i)])[..|ns|] == ns;
  }

  /** The extra constructor argument `serialisationRepr` passes on: none for the all-substitutions mask. */
  function ExtraArguments(mask: bv32): (r: string)
    ensures r == "" <==> mask == AllSubstitutions
    ensures mask != AllSubstitutions ==> r == "substitutions = " + Repr(mask)
  {
    if mask != AllSubstitutions then "substitutions = " + Repr(mask) else ""
  }

  // ---------------------------------------------------------------- laws

  /** A joined list of non-empty names is empty iff the list is. */
  lemma {:induction false} JoinEmptyIff(names: seq<string>, sep: string)
    requires forall i :: 0 <= i < |names| ==> Edged(names[i])
    ensures Tokens.Join(names, sep) == [] <==> names == []
    decreases |names|
  {
    if |names| > 1 {
      var init := names[..|names| - 1];
      assert names[|names| - 1] != [];
    }
  }

  /** An entry is listed iff it is among the first `n` and the mask has its flag. */
  lemma {:induction false} ListedIffSet(mask: bv32, n: nat, i: nat)
    requires n <= FlagCount
    ensures i in SetFlags(mask, n) <==> i < n && HasFlag(mask, i)
    decreases n
  {
    if n > 0 {
      ListedIffSet(mask, n - 1, i);
      var prev, b := SetFlags(mask, n - 1), HasFlag(mask, n - 1);
      assert SetFlags(mask, n) == prev + (if b then [n - 1] else []);
      if i == n - 1 {
        assert i !in prev;
      }
    }
  }

  /** The listed entries keep the table's order. */
  lemma {:induction false} ListedInOrder(mask: bv32, n: nat)
    requires n <= FlagCount
    ensures forall j, k :: 0 <= j < k < |SetFlags(mask, n)| ==> SetFlags(mask, n)[j] < SetFlags(mask, n)[k]
    decreases n
  {
    if n > 0 {
      ListedInOrder(mask, n - 1);
    }
  }

  /** A name is listed iff its entry is: the names tell the entries apart. */
  lemma {:induction false} NameListedIff(ids: seq<nat>, i: nat)
    requires forall k :: 0 <= k < |ids| ==> ids[k] < FlagCount
    requires i < FlagCount
    ensures Qualified(i) in NamesOf(ids) <==> i in ids
    decreases |ids|
  {
    if ids != [] {
      var init, last := ids[..|ids| - 1], ids[|ids| - 1];
      NameListedIff(init, i);
      if last != i {
        QualifiedDistinct(i, last);
      }
      assert ids == init + [last];
    }
  }

  /**
   * For every mask but the two whole-mask ones, the representation lists, in
   * table order, exactly the qualified names of the flags the mask has.
   */
  lemma ReprListsSetFlags(mask: bv32, i: nat)
    requires mask != AllSubstitutions && mask != NoSubstitutions
    requires i < FlagCount
    ensures Repr(mask) == Tokens.Join(NamesOf(SetFlags(mask, FlagCount)), Bar)
    ensures Qualified(i) in NamesOf(SetFlags(mask, FlagCount)) <==> mask & FlagValue(i) != 0
  {
    ListedIffSet(mask, FlagCount, i);
    NameListedIff(SetFlags(mask, FlagCount), i);
  }

  /** The representation neither starts nor ends with the separator. */
  lemma ReprHasNoEdgeSeparator(mask: bv32)
    ensures Repr(mask) == "" || Edged(Repr(mask))
  {
    if mask != AllSubstitutions && mask != NoSubstitutions {
      NamesEdged(SetFlags(mask, FlagCount));
      JoinEnds(NamesOf(SetFlags(mask, FlagCount)), Bar);
    }
  }

  lemma {:induction false} JoinEnds(names: seq<string>, sep: string)
    requires forall i :: 0 <= i < |names| ==> Edged(names[i])
    ensures Tokens.Join(names, sep) == "" || Edged(Tokens.Join(names, sep))
    decreases |names|
  {
    if |names| > 1 {
      JoinEnds(names[..|names| - 1], sep);
      JoinEmptyIff(names[..|names| - 1], sep);
    }
  }

  /** Bits outside the table do not show: masks that differ only there render alike. */
  lemma ExtraBitsIgnored(m1: bv32, m2: bv32)
    requires m1 != AllSubstitutions && m1 != NoSubstitutions
    requires m2 != AllSubstitutions && m2 != NoSubstitutions
    requires m1 & AllSubstitutions == m2 & AllSubstitutions
    ensures Repr(m1) == Repr(m2)
  {
    SameBitsSameNames(m1, m2, FlagCount);
  }

  lemma {:induction false} SameBitsSameNames(m1: bv32, m2: bv32, n: nat)
    requires n <= FlagCount
    requires m1 & AllSubstitutions == m2 & AllSubstitutions
    ensures SetFlags(m1, n) == SetFlags(m2, n)
    decreases n
  {
    if n > 0 {
      SameBitsSameNames(m1, m2, n - 1);
      var v := FlagValue(n - 1);
      assert (m1 & v != 0) == (m2 & v != 0) by {
        assert v & AllSubstitutions == v;
        assert m1 & v == (m1 & AllSubstitutions) & v;
        assert m2 & v == (m2 & AllSubstitutions) & v;
      }
    }
  }

  /** A mask with only bits outside the table renders as the empty string. */
  lemma OnlyUnlistedBitsGiveNothing()
    ensures Repr(16) == ""
  {
    assert SetFlags(16, 4) == [];
  }

  /** The default mask of the plug lists three flags, and is serialised since it is not the whole mask. */
  lemma DefaultMaskRepr()
    ensures DefaultPlugSubstitutions == 14
    ensures Repr(DefaultPlugSubstitutions) == Qualified(1) + Bar + Qualified(2) + Bar + Qualified(3)
    ensures ExtraArguments(DefaultPlugSubstitutions) == "substitutions = " + Repr(DefaultPlugSubstitutions)
  {
    assert Listed(14, 1) == "" by {
      assert !HasFlag(14, 0);
    }
    assert Listed(14, 2) == Qualified(1) by {
      assert HasFlag(14, 1);
    }
    QualifiedEnds(1);
    assert Listed(14, 3) == Qualified(1) + Bar + Qualified(2) by {
      assert HasFlag(14, 2);
    }
    assert HasFlag(14, 3);
    ListedIsJoin(14, 4);
  }

  /** The qualified names of the three flags of the default mask. */
  lemma VariableName()
    ensures Qualified(1) == "Gaffer.Context.Substitutions.VariableSubstitutions"
  {
  }

  lemma EscapeName()
    ensures Qualified(2) == "Gaffer.Context.Substitutions.EscapeSubstitutions"
  {
  }

  lemma TildeName()
    ensures Qualified(3) == "Gaffer.Context.Substitutions.TildeSubstitutions"
  {
  }

  /** Whole masks get their own names. */
  lemma WholeMaskNames()
    ensures Repr(AllSubstitutions) == "Gaffer.Context.Substitutions.AllSubstitutions"
    ensures Repr(NoSubstitutions) == "Gaffer.Context.Substitutions.NoSubstitutions"
    ensures ExtraArguments(AllSubstitutions) == ""
  {
  }
}
