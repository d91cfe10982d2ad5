/**
 * Display names of foods (`formatFoodName` of nutrition.js and comparison.js)
 * and the fuzzy lookup of a food by name (`findFood`).
 *
 * A raw name is split at '/', ',', '\' and '-'; each piece is trimmed; a piece
 * that already holds an upper-case ASCII letter is kept as it is, any other
 * piece has each space-separated word capitalised; the pieces are joined with
 * " / ".
 */
module FoodName {
  import opened Text
  import opened Wrappers
  import opened Lists

  /** The separators of `name.split(/[\/,\\-]/)`. */
  predicate IsNameSeparator(c: char) {
    c == '/' || c == ',' || c == '\\' || c == '-'
  }

  predicate IsSpace(c: char) {
    c == ' '
  }

  /** `/[A-Z]/.test(s)`. */
  predicate HasUpper(s: string) {
    exists j :: 0 <= j < |s| && IsUpperAscii(s[j])
  }

  /** `word.charAt(0).toUpperCase() + word.slice(1).toLowerCase()`. */
  function CapitalizeWord(w: string): string {
    if w == [] then [] else [UpperChar(w[0])] + Lower(w[1..])
  }

  /** `t.split(' ').map(CapitalizeWord).join(' ')`. */
  function CapitalizeWords(t: string): string {
    var words := Split(t, IsSpace);
    Join(seq(|words|, k requires 0 <= k < |words| => CapitalizeWord(words[k])), " ")
  }

  /** One separator-delimited piece of a name, as displayed. */
  function FormatPart(part: string): string {
    var t := JsTrim(part);
    if HasUpper(t) then t else CapitalizeWords(t)
  }

  /**
   * `formatFoodName(name)`: the empty name gives the empty string; otherwise the
   * formatted pieces joined by " / ". Formatting only changes letter case and the
   * blanks around separators, so every separator of the input reappears as one
   * '/' of the output and nothing else in the output is a separator.
   */
  function FormatFoodName(name: string): (r: string)
    ensures name == [] ==> r == []
    ensures Count(r, IsNameSeparator) == Count(name, IsNameSeparator)
  {
    if name == [] then []
    else
      var parts := Split(name, IsNameSeparator);
      var outs := seq(|parts|, k requires 0 <= k < |parts| => FormatPart(parts[k]));
      FormattedPartsClean(parts);
      CountSpacedJoin(outs);
      Join(outs, " / ")
  }

  // ---------------------------------------------------------------------------
  // Case-insensitive sameness: formatting changes letter case only.

  lemma LowerCharPreservesClass(a: char, b: char)
    requires LowerChar(a) == LowerChar(b)
    ensures IsJsWhite(a) <==> IsJsWhite(b)
    ensures IsNameSeparator(a) <==> IsNameSeparator(b)
    ensures IsSpace(a) <==> IsSpace(b)
  {
  }

  lemma UpperLowerAgree(c: char)
    ensures LowerChar(UpperChar(c)) == LowerChar(c)
    ensures UpperChar(UpperChar(c)) == UpperChar(c)
    ensures LowerChar(LowerChar(c)) == LowerChar(c)
  {
  }

  lemma CapitalizeWordLower(w: string)
    ensures Lower(CapitalizeWord(w)) == Lower(w)
  {
    if w != [] {
      var c := CapitalizeWord(w);
      var tail := Lower(w[1..]);
      assert c == [UpperChar(w[0])] + tail;
      forall j | 0 <= j < |w|
        ensures Lower(c)[j] == Lower(w)[j]
      {
        if j == 0 {
          UpperLowerAgree(w[0]);
        } else {
          assert c[j] == tail[j - 1] == LowerChar(w[j]);
          UpperLowerAgree(w[j]);
        }
      }
    }
  }

  /** Capitalising the words of `t` changes letter case only. */
  lemma CapitalizeWordsLower(t: string)
    ensures Lower(CapitalizeWords(t)) == Lower(t)
  {
    var words := Split(t, IsSpace);
    var caps := seq(|words|, k requires 0 <= k < |words| => CapitalizeWord(words[k]));
    LowerJoin(caps, " ");
    LowerJoin(words, " ");
    forall k | 0 <= k < |words| ensures Lower(caps[k]) == Lower(words[k]) {
      CapitalizeWordLower(words[k]);
    }
    assert seq(|caps|, k requires 0 <= k < |caps| => Lower(caps[k]))
        == seq(|words|, k requires 0 <= k < |words| => Lower(words[k]));
    JoinSplit(t, ' ', IsSpace);
  }

  /** A formatted piece differs from the trimmed piece in letter case only. */
  lemma FormatPartLower(part: string)
    ensures Lower(FormatPart(part)) == Lower(JsTrim(part))
  {
    var t := JsTrim(part);
    if !HasUpper(t) {
      CapitalizeWordsLower(t);
    }
  }

  lemma CountLower(s: string, p: char -> bool)
    requires forall a: char, b: char :: LowerChar(a) == LowerChar(b) ==> (p(a) <==> p(b))
    ensures Count(Lower(s), p) == Count(s, p)
    decreases |s|
  {
    if s != [] {
      assert Lower(s)[1..] == Lower(s[1..]);
      CountLower(s[1..], p);
      assert LowerChar(Lower(s)[0]) == LowerChar(s[0]) by { UpperLowerAgree(s[0]); }
    }
  }

  lemma NoCharIn(s: string, p: char -> bool)
    requires forall j :: 0 <= j < |s| ==> !p(s[j])
    ensures Count(s, p) == 0
    decreases |s|
  {
    if s != [] {
      NoCharIn(s[1..], p);
    }
  }

  lemma NoCharFromCount(s: string, p: char -> bool)
    requires Count(s, p) == 0
    ensures forall j :: 0 <= j < |s| ==> !p(s[j])
    decreases |s|
  {
    if s != [] {
      NoCharFromCount(s[1..], p);
      assert forall j :: 1 <= j < |s| ==> s[j] == s[1..][j - 1];
    }
  }

  /** Trimming keeps a slice of the input, so a class of characters absent from the input stays absent. */
  lemma TrimKeepsAbsent(s: string, white: char -> bool, p: char -> bool)
    requires forall j :: 0 <= j < |s| ==> !p(s[j])
    ensures forall j :: 0 <= j < |Trim(s, white)| ==> !p(Trim(s, white)[j])
  {
    var r := Trim(s, white);
    var i, k :| WhiteCut(s, i, k, white) && r == s[i..k];
    forall j | 0 <= j < |r|
      ensures !p(r[j])
    {
      assert r[j] == s[i + j];
    }
  }

  /** Two strings equal up to ASCII case agree, position by position, on white space, separators and spaces. */
  lemma CaseBlindClasses(o: string, t: string)
    requires Lower(o) == Lower(t)
    ensures |o| == |t|
    ensures forall j :: 0 <= j < |o| ==>
      (IsJsWhite(o[j]) <==> IsJsWhite(t[j])) && (IsNameSeparator(o[j]) <==> IsNameSeparator(t[j])) &&
      (IsSpace(o[j]) <==> IsSpace(t[j]))
  {
    forall j | 0 <= j < |o|
      ensures (IsJsWhite(o[j]) <==> IsJsWhite(t[j])) && (IsNameSeparator(o[j]) <==> IsNameSeparator(t[j])) &&
              (IsSpace(o[j]) <==> IsSpace(t[j]))
    {
      assert Lower(o)[j] == Lower(t)[j];
      LowerCharPreservesClass(o[j], t[j]);
    }
  }

  /**
   * A formatted piece holds no separator and has no white space at either end,
   * provided the raw piece held no separator.
   */
  lemma FormatPartClean(part: string)
    requires forall j :: 0 <= j < |part| ==> !IsNameSeparator(part[j])
    ensures forall j :: 0 <= j < |FormatPart(part)| ==> !IsNameSeparator(FormatPart(part)[j])
    ensures JsTrim(FormatPart(part)) == FormatPart(part)
  {
    TrimKeepsAbsent(part, IsJsWhite, IsNameSeparator);
    FormatPartLower(part);
    CleanUpToCase(FormatPart(part), JsTrim(part));
  }

  lemma CleanUpToCase(o: string, t: string)
    requires Lower(o) == Lower(t)
    requires forall j :: 0 <= j < |t| ==> !IsNameSeparator(t[j])
    requires t == [] || (!IsJsWhite(t[0]) && !IsJsWhite(t[|t| - 1]))
    ensures forall j :: 0 <= j < |o| ==> !IsNameSeparator(o[j])
    ensures JsTrim(o) == o
  {
    CaseBlindClasses(o, t);
    TrimKeepsTrimmed(o, IsJsWhite);
  }

  lemma FormattedPartsClean(parts: seq<string>)
    requires forall k, j :: 0 <= k < |parts| && 0 <= j < |parts[k]| ==> !IsNameSeparator(parts[k][j])
    ensures forall k, j :: 0 <= k < |parts| && 0 <= j < |FormatPart(parts[k])| ==> !IsNameSeparator(FormatPart(parts[k])[j])
  {
    forall k | 0 <= k < |parts| {
      FormatPartClean(parts[k]);
    }
  }

  /** Joining separator-free pieces with " / " puts exactly one separator between neighbours. */
  lemma {:induction false} CountSpacedJoin(outs: seq<string>)
    requires |outs| >= 1
    requires forall k, j :: 0 <= k < |outs| && 0 <= j < |outs[k]| ==> !IsNameSeparator(outs[k][j])
    ensures Count(Join(outs, " / "), IsNameSeparator) == |outs| - 1
    decreases |outs|
  {
    NoCharIn(outs[0], IsNameSeparator);
    if |outs| > 1 {
      CountSpacedJoin(outs[1..]);
      CountConcat(outs[0] + " / ", Join(outs[1..], " / "), IsNameSeparator);
      CountConcat(outs[0], " / ", IsNameSeparator);
    }
  }

  // ---------------------------------------------------------------------------
  // Idempotence.

  lemma CapitalizeWordIdempotent(w: string)
    ensures CapitalizeWord(CapitalizeWord(w)) == CapitalizeWord(w)
  {
    if w != [] {
      UpperLowerAgree(w[0]);
      assert forall j :: 1 <= j < |w| ==> LowerChar(LowerChar(w[j])) == LowerChar(w[j]);
    }
  }

  /** Capitalising the words of an already capitalised text changes nothing. */
  lemma CapitalizeWordsIdempotent(t: string)
    ensures CapitalizeWords(CapitalizeWords(t)) == CapitalizeWords(t)
  {
    var words := Split(t, IsSpace);
    var caps := seq(|words|, k requires 0 <= k < |words| => CapitalizeWord(words[k]));
    forall k, j | 0 <= k < |caps| && 0 <= j < |caps[k]| ensures !IsSpace(caps[k][j]) {
      CapitalizeWordLower(words[k]);
      assert LowerChar(Lower(caps[k])[j]) == LowerChar(Lower(words[k])[j]);
      UpperLowerAgree(caps[k][j]);
      UpperLowerAgree(words[k][j]);
      LowerCharPreservesClass(caps[k][j], words[k][j]);
    }
    SplitJoin(caps, ' ', IsSpace);
    forall k | 0 <= k < |caps| ensures CapitalizeWord(caps[k]) == caps[k] {
      CapitalizeWordIdempotent(words[k]);
    }
    assert seq(|caps|, k requires 0 <= k < |caps| => CapitalizeWord(caps[k])) == caps;
  }

  /** Formatting the result of FormatPart again leaves it unchanged. */
  lemma FormatPartStable(part: string)
    ensures var o := FormatPart(part); (if HasUpper(o) then o else CapitalizeWords(o)) == o
  {
    var t := JsTrim(part);
    if !HasUpper(t) {
      CapitalizeWordsIdempotent(t);
    }
  }

  /**
   * The pieces of a " / "-joined text as seen by a split at '/': each piece with a
   * blank in front (except the first, unless `lead`) and a blank behind (except the last).
   */
  function Padded(outs: seq<string>, lead: bool): (r: seq<string>)
    ensures |r| == |outs|
    ensures forall k :: 0 <= k < |outs| ==>
      r[k] == (if k > 0 || lead then " " else "") + outs[k] + (if k < |outs| - 1 then " " else "")
  {
    seq(|outs|, k requires 0 <= k < |outs| =>
      (if k > 0 || lead then " " else "") + outs[k] + (if k < |outs| - 1 then " " else ""))
  }

  lemma {:induction false} JoinPadded(outs: seq<string>, lead: bool)
    requires |outs| >= 1
    ensures (if lead then " " else "") + Join(outs, " / ") == Join(Padded(outs, lead), "/")
    decreases |outs|
  {
    var front := if lead then " " else "";
    if |outs| > 1 {
      JoinPadded(outs[1..], true);
      assert Padded(outs, lead)[1..] == Padded(outs[1..], true);
      assert front + Join(outs, " / ") == (front + outs[0] + " ") + "/" + (" " + Join(outs[1..], " / "));
    } else {
      assert Padded(outs, lead)[0] == front + outs[0];
    }
  }

  lemma PaddedClean(outs: seq<string>, lead: bool)
    requires forall k, j :: 0 <= k < |outs| && 0 <= j < |outs[k]| ==> !IsNameSeparator(outs[k][j])
    ensures forall k, j :: 0 <= k < |outs| && 0 <= j < |Padded(outs, lead)[k]| ==> !IsNameSeparator(Padded(outs, lead)[k][j])
  {
    var padded := Padded(outs, lead);
    forall k, j | 0 <= k < |padded| && 0 <= j < |padded[k]| ensures !IsNameSeparator(padded[k][j]) {
      var front := if k > 0 || lead then " " else "";
      var back := if k < |outs| - 1 then " " else "";
      assert padded[k] == front + outs[k] + back;
      if j >= |front| && j < |front| + |outs[k]| {
        assert padded[k][j] == outs[k][j - |front|];
      }
    }
  }

  lemma TrimBlanked(o: string, front: string, back: string, white: char -> bool)
    requires white(' ')
    requires front == [] || front == [' ']
    requires back == [] || back == [' ']
    ensures Trim(front + o + back, white) == Trim(o, white)
  {
    var x := front + o + back;
    var y := o + back;
    assert x == front + y;
    if back == [] {
      assert y == o;
    } else {
      TrimIgnoresPadding(o, ' ', white);
    }
    assert Trim(y, white) == Trim(o, white);
    if front == [] {
      assert x == y;
    } else {
      TrimIgnoresPadding(y, ' ', white);
    }
  }

  lemma PaddedTrim(outs: seq<string>, white: char -> bool)
    requires white(' ')
    ensures forall k :: 0 <= k < |outs| ==> Trim(Padded(outs, false)[k], white) == Trim(outs[k], white)
  {
    forall k | 0 <= k < |outs| ensures Trim(Padded(outs, false)[k], white) == Trim(outs[k], white) {
      TrimBlanked(outs[k], if k > 0 then " " else "", if k < |outs| - 1 then " " else "", white);
    }
  }

  /** Splitting a " / "-joined text at separators gives pieces that trim back to the joined ones. */
  lemma SplitSpacedJoin(outs: seq<string>, white: char -> bool)
    requires |outs| >= 1
    requires white(' ')
    requires forall k, j :: 0 <= k < |outs| && 0 <= j < |outs[k]| ==> !IsNameSeparator(outs[k][j])
    ensures |Split(Join(outs, " / "), IsNameSeparator)| == |outs|
    ensures forall k :: 0 <= k < |outs| ==> Trim(Split(Join(outs, " / "), IsNameSeparator)[k], white) == Trim(outs[k], white)
  {
    JoinPadded(outs, false);
    assert "" + Join(outs, " / ") == Join(outs, " / ");
    PaddedClean(outs, false);
    SplitJoin(Padded(outs, false), '/', IsNameSeparator);
    PaddedTrim(outs, white);
  }

  /** Formatting each piece of a " / "-joined list of formatted pieces gives those pieces back. */
  lemma FormattedPiecesStable(parts: seq<string>)
    requires |parts| >= 1
    requires forall k, j :: 0 <= k < |parts| && 0 <= j < |parts[k]| ==> !IsNameSeparator(parts[k][j])
    ensures var outs := seq(|parts|, k requires 0 <= k < |parts| => FormatPart(parts[k]));
      var parts2 := Split(Join(outs, " / "), IsNameSeparator);
      seq(|parts2|, k requires 0 <= k < |parts2| => FormatPart(parts2[k])) == outs
  {
    var outs := seq(|parts|, k requires 0 <= k < |parts| => FormatPart(parts[k]));
    FormattedPartsClean(parts);
    SplitSpacedJoin(outs, IsJsWhite);
    var parts2 := Split(Join(outs, " / "), IsNameSeparator);
    forall k | 0 <= k < |outs| ensures FormatPart(parts2[k]) == outs[k] {
      FormatPartClean(parts[k]);
      FormatPartStable(parts[k]);
    }
  }

  /** formatFoodName is idempotent: a formatted name is its own display name. */
  lemma FormatFoodNameIdempotent(name: string)
    ensures FormatFoodName(FormatFoodName(name)) == FormatFoodName(name)
  {
    if name != [] {
      FormattedPiecesStable(Split(name, IsNameSeparator));
    }
  }

  /** A formatted name differs from the raw name, compared without case, only around separators: piece by piece it is the trimmed raw piece. */
  lemma FormatFoodNamePieces(name: string)
    requires name != []
    ensures |Split(FormatFoodName(name), IsNameSeparator)| == |Split(name, IsNameSeparator)|
    ensures forall k :: 0 <= k < |Split(name, IsNameSeparator)| ==>
      Lower(JsTrim(Split(FormatFoodName(name), IsNameSeparator)[k])) == Lower(JsTrim(Split(name, IsNameSeparator)[k]))
  {
    var parts := Split(name, IsNameSeparator);
    var outs := seq(|parts|, k requires 0 <= k < |parts| => FormatPart(parts[k]));
    FormattedPartsClean(parts);
    SplitSpacedJoin(outs, IsJsWhite);
    forall k | 0 <= k < |parts|
      ensures JsTrim(outs[k]) == outs[k] && Lower(outs[k]) == Lower(JsTrim(parts[k]))
    {
      FormatPartClean(parts[k]);
      FormatPartLower(parts[k]);
    }
  }

  // ---------------------------------------------------------------------------
  // findFood.

  /**
   * The test `findFood` applies to one food: the lower-cased, trimmed menu name or
   * display name equals, contains or is contained in the lower-cased, trimmed search term.
   */
  predicate MatchesSearch(menu: string, search: string) {
    var searchName := JsTrim(Lower(search));
    var menuName := JsTrim(Lower(menu));
    var formattedName := JsTrim(Lower(FormatFoodName(menu)));
    menuName == searchName || formattedName == searchName ||
    Contains(menuName, searchName) || Contains(formattedName, searchName) ||
    Contains(searchName, menuName) || Contains(searchName, formattedName)
  }

  /**
   * `findFood(foodName)` over the menu names of the loaded foods (a missing Menu is
   * the empty name): the index of the first food that matches, or None when no food does.
   */
  function FindFood(menus: seq<string>, search: string): (r: Option<nat>)
    ensures r.Some? ==> r.value < |menus| && MatchesSearch(menus[r.value], search)
    ensures r.Some? ==> forall j :: 0 <= j < r.value ==> !MatchesSearch(menus[j], search)
    ensures r.None? <==> forall j :: 0 <= j < |menus| ==> !MatchesSearch(menus[j], search)
  {
    FindFirst(menus, m => MatchesSearch(m, search))
  }

  /**
   * Because of the reverse containment test, a food whose Menu is empty (or blank)
   * matches every search, so the lookup never gets past it.
   */
  lemma BlankMenuMatchesEverything(menus: seq<string>, search: string, k: nat)
    requires k < |menus| && JsTrim(Lower(menus[k])) == []
    ensures FindFood(menus, search).Some? && FindFood(menus, search).value <= k
  {
    ContainsEmpty(JsTrim(Lower(search)));
    assert MatchesSearch(menus[k], search);
  }
}
