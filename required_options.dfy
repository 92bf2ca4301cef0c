// When the cart refuses an item because a required option group was left
// empty, the server answers "You must select at least one option for:
// <groups>." The home page cuts the group names out of that sentence and
// shows them again as an Arabic list ("a، b و c"). This module models both
// directions and proves that the display form reads back as the list.

module RequiredOptions {

  import opened Common

  /** The English lead-in the server puts before the group names. */
  const RequiredPrefix: string := "You must select at least one option for:"

  /** ARABIC COMMA */
  const ArabicComma: char := '\U{060C}'
  /** ARABIC LETTER WAW, the word "and". */
  const Waw: char := '\U{0648}'

  /**
   * Length of the separator of /،|,|\sو\s/ that starts the string, or 0.
   * The alternatives are tried in the order they are written.
   */
  function SepLen(s: string): (r: nat)
    ensures r <= |s|
  {
    if |s| >= 1 && s[0] == ArabicComma then 1
    else if |s| >= 1 && s[0] == ',' then 1
    else if |s| >= 3 && IsSpace(s[0]) && s[1] == Waw && IsSpace(s[2]) then 3
    else 0
  }

  /** `s.split(/،|,|\sو\s/)`: the pieces between separators, scanning from the left. */
  function SplitOptions(s: string): (r: seq<string>)
    ensures |r| >= 1
  {
    if s == [] then [""]
    else if SepLen(s) > 0 then [""] + SplitOptions(s[SepLen(s)..])
    else
      var rest := SplitOptions(s[1..]);
      [[s[0]] + rest[0]] + rest[1..]
  }

  function TrimAll(xs: seq<string>): (r: seq<string>)
    ensures |r| == |xs| && forall i :: 0 <= i < |xs| ==> r[i] == Trim(xs[i])
  {
    seq(|xs|, i requires 0 <= i < |xs| => Trim(xs[i]))
  }

  predicate NonEmpty(x: string) { x != "" }

  /**
   * extractRequiredOptionsFromError: nothing for a missing or empty
   * description; otherwise drop the first lead-in and the first ".", trim,
   * split, trim every piece and keep the non-empty ones.
   */
  function ExtractRequiredOptions(errorDescription: Option<string>): seq<string> {
    match errorDescription
    case None => []
    case Some(d) =>
      if d == "" then []
      else
        var optionsText := Trim(ReplaceFirst(ReplaceFirst(d, RequiredPrefix, ""), ".", ""));
        Filter(TrimAll(SplitOptions(optionsText)), NonEmpty)
  }

  /** Every returned name is non-empty and already trimmed; a missing or empty description gives none. */
  lemma ExtractedAreTrimmed(errorDescription: Option<string>)
    ensures errorDescription == None || errorDescription == Some("") ==> ExtractRequiredOptions(errorDescription) == []
    ensures forall x :: x in ExtractRequiredOptions(errorDescription) ==> x != "" && Trim(x) == x
  {
    if errorDescription.Some? && errorDescription.value != "" {
      var d := errorDescription.value;
      KeptPiecesTrimmed(Trim(ReplaceFirst(ReplaceFirst(d, RequiredPrefix, ""), ".", "")));
    }
  }

  /** The pieces kept from a text are non-empty and trimmed. */
  lemma KeptPiecesTrimmed(optionsText: string)
    ensures forall x :: x in Filter(TrimAll(SplitOptions(optionsText)), NonEmpty) ==> x != "" && Trim(x) == x
  {
    var pieces := TrimAll(SplitOptions(optionsText));
    FilterSpec(pieces, NonEmpty);
    forall x | x in Filter(pieces, NonEmpty) ensures x != "" && Trim(x) == x {
      var i :| 0 <= i < |pieces| && pieces[i] == x;
      TrimIdempotent(SplitOptions(optionsText)[i]);
    }
  }

  /** Only the first occurrence of a pattern is cut out; a later one stays. */
  lemma ReplaceFirstOnlyFirst(s: string, p: string)
    requires p != ""
    ensures IndexOf(s, p).None? ==> ReplaceFirst(s, p, "") == s
    ensures IndexOf(s, p).Some? ==>
      var i := IndexOf(s, p).value;
      ReplaceFirst(s, p, "") == s[..i] + s[i + |p|..] && |ReplaceFirst(s, p, "")| == |s| - |p|
    ensures ReplaceFirst(p + p, p, "") == p
  {
    assert StartsWith(p + p, p) by { assert (p + p)[..|p|] == p; }
    assert (p + p)[|p|..] == p;
  }

  /** formatOptionsForDisplay */
  function FormatOptionsForDisplay(optionsList: seq<string>): string {
    if |optionsList| == 0 then ""
    else if |optionsList| == 1 then optionsList[0]
    else if |optionsList| == 2 then optionsList[0] + " " + [Waw] + " " + optionsList[1]
    else
      var lastOption := optionsList[|optionsList| - 1];
      var otherOptions := optionsList[..|optionsList| - 1];
      Join(otherOptions, [ArabicComma, ' ']) + " " + [Waw] + " " + lastOption
  }

  /**
   * Two or more names always read "first، ...، next-to-last و last": the
   * two-name case is the general one with a single leading name.
   */
  lemma FormatShape(xs: seq<string>)
    ensures |xs| == 0 ==> FormatOptionsForDisplay(xs) == ""
    ensures |xs| == 1 ==> FormatOptionsForDisplay(xs) == xs[0]
    ensures |xs| >= 2 ==>
      FormatOptionsForDisplay(xs) == Join(xs[..|xs| - 1], [ArabicComma, ' ']) + " " + [Waw] + " " + xs[|xs| - 1]
  {
    if |xs| == 2 {
      assert xs[..1] == [xs[0]];
    }
  }

  // ---------------------------------------------------------------------
  // Reading the display form back

  /** A group name that survives the round trip: no whitespace, none of ، , . and not the bare word "و". */
  predicate CleanOption(x: string) {
    |x| > 0 && x != [Waw]
    && forall i :: 0 <= i < |x| ==> !IsSpace(x[i]) && x[i] != ArabicComma && x[i] != ',' && x[i] != '.'
  }

  predicate SepFree(y: string) {
    forall i :: 0 <= i < |y| ==> !IsSpace(y[i]) && y[i] != ArabicComma && y[i] != ','
  }

  /** A character that does not start a separator is glued to the first piece of what follows. */
  lemma SplitCons(c: char, rest: string)
    requires SepLen([c] + rest) == 0
    ensures SplitOptions([c] + rest) == [[c] + SplitOptions(rest)[0]] + SplitOptions(rest)[1..]
  {
    assert ([c] + rest)[1..] == rest;
  }

  /** A leading run of ordinary characters is glued to the first piece of what follows. */
  lemma {:induction false} SplitSepFree(y: string, rest: string)
    requires SepFree(y)
    ensures SplitOptions(y + rest) == [y + SplitOptions(rest)[0]] + SplitOptions(rest)[1..]
  {
    if y != [] {
      var y' := y[1..];
      assert SepFree(y') by {
        forall i | 0 <= i < |y'| ensures !IsSpace(y'[i]) && y'[i] != ArabicComma && y'[i] != ',' {
          assert y'[i] == y[i + 1];
        }
      }
      SplitSepFree(y', rest);
      var r := SplitOptions(rest);
      var r1 := SplitOptions(y' + rest);
      assert r1 == [y' + r[0]] + r[1..];
      assert r1[0] == y' + r[0] && r1[1..] == r[1..];
      assert y + rest == [y[0]] + (y' + rest);
      SplitCons(y[0], y' + rest);
      assert SplitOptions(y + rest) == [[y[0]] + r1[0]] + r1[1..];
      assert [y[0]] + (y' + r[0]) == y + r[0];
    } else {
      var r := SplitOptions(rest);
      assert y + rest == rest && y + r[0] == r[0];
      assert [r[0]] + r[1..] == r;
    }
  }

  lemma SplitAfterComma(rest: string)
    ensures SplitOptions([ArabicComma] + rest) == [""] + SplitOptions(rest)
  {
    assert ([ArabicComma] + rest)[1..] == rest;
  }

  lemma SplitAfterWaw(rest: string)
    ensures SplitOptions(" " + [Waw] + " " + rest) == [""] + SplitOptions(rest)
  {
    assert (" " + [Waw] + " " + rest)[3..] == rest;
  }

  /** A space followed by a clean name does not start a separator. */
  lemma SplitSpaceClean(y: string, rest: string)
    requires CleanOption(y)
    ensures SplitOptions(" " + y + rest) == [" " + y + SplitOptions(rest)[0]] + SplitOptions(rest)[1..]
  {
    var s := " " + y + rest;
    assert s[1..] == y + rest;
    assert s[1] == y[0];
    assert |y| >= 2 ==> s[2] == y[1];
    assert SepLen(s) == 0;
    SplitSepFree(y, rest);
    var r := SplitOptions(rest);
    var r1 := SplitOptions(y + rest);
    assert SplitOptions(s) == [[' '] + r1[0]] + r1[1..];
    assert r1[0] == y + r[0] && r1[1..] == r[1..];
    assert [' '] + (y + r[0]) == " " + y + r[0];
  }

  lemma SplitClean(y: string)
    requires CleanOption(y)
    ensures SplitOptions(y) == [y]
  {
    SplitSepFree(y, "");
    assert y + "" == y;
  }

  function Spaced(zs: seq<string>): (r: seq<string>)
    ensures |r| == |zs| && forall i :: 0 <= i < |zs| ==> r[i] == " " + zs[i]
  {
    seq(|zs|, i requires 0 <= i < |zs| => " " + zs[i])
  }

  /** A clean name, with or without one space before it, is glued to the first piece of what follows. */
  lemma SplitLed(lead: string, y: string, rest: string)
    requires CleanOption(y) && (lead == "" || lead == " ")
    ensures SplitOptions(lead + y + rest) == [lead + y + SplitOptions(rest)[0]] + SplitOptions(rest)[1..]
  {
    if lead == "" {
      assert lead + y + rest == y + rest && lead + y == y;
      SplitSepFree(y, rest);
    } else {
      SplitSpaceClean(y, rest);
    }
  }

  /** "lead y و last" with one leading name. */
  lemma SplitJoinedOne(y: string, last: string, lead: string)
    requires CleanOption(y) && CleanOption(last) && (lead == "" || lead == " ")
    ensures SplitOptions(lead + y + (" " + [Waw] + " " + last)) == [lead + y, last]
  {
    var tail := " " + [Waw] + " " + last;
    SplitClean(last);
    SplitAfterWaw(last);
    var rt := SplitOptions(tail);
    assert rt == ["", last];
    SplitLed(lead, y, tail);
    assert lead + y + rt[0] == lead + y;
  }

  /** "lead y، rest": the name is one piece and the comma starts the next. */
  lemma SplitJoinedStep(y: string, inner: string, lead: string)
    requires CleanOption(y) && (lead == "" || lead == " ")
    ensures SplitOptions(lead + y + ([ArabicComma] + inner)) == [lead + y] + SplitOptions(inner)
  {
    var rest := [ArabicComma] + inner;
    SplitAfterComma(inner);
    var rr := SplitOptions(rest);
    SplitLed(lead, y, rest);
    assert lead + y + rr[0] == lead + y;
  }

  lemma JoinedRegroup(lead: string, y: string, rest: string, tail: string)
    ensures lead + (y + [ArabicComma, ' '] + rest) + tail == lead + y + ([ArabicComma] + (" " + rest + tail))
  {
    var l := lead + (y + [ArabicComma, ' '] + rest) + tail;
    var r := lead + y + ([ArabicComma] + (" " + rest + tail));
    assert |l| == |r|;
    forall i | 0 <= i < |l| ensures l[i] == r[i] {
    }
  }

  /** The pieces of "lead y0، y1، ... و last": each y and the last, all but the first after a space. */
  lemma {:induction false} SplitJoined(ys: seq<string>, last: string, lead: string)
    requires |ys| >= 1 && (forall i :: 0 <= i < |ys| ==> CleanOption(ys[i])) && CleanOption(last)
    requires lead == "" || lead == " "
    ensures SplitOptions(lead + Join(ys, [ArabicComma, ' ']) + (" " + [Waw] + " " + last))
      == [lead + ys[0]] + Spaced(ys[1..]) + [last]
  {
    var sep := [ArabicComma, ' '];
    var tail := " " + [Waw] + " " + last;
    if |ys| == 1 {
      SplitJoinedOne(ys[0], last, lead);
      assert Spaced(ys[1..]) == [];
    } else {
      var inner := " " + Join(ys[1..], sep) + tail;
      assert Join(ys, sep) == ys[0] + sep + Join(ys[1..], sep);
      JoinedRegroup(lead, ys[0], Join(ys[1..], sep), tail);
      SplitJoinedStep(ys[0], inner, lead);
      SplitJoined(ys[1..], last, " ");
      assert Spaced(ys[1..]) == [" " + ys[1]] + Spaced(ys[2..]);
    }
  }

  predicate NoDot(s: string) { forall i :: 0 <= i < |s| ==> s[i] != '.' }

  lemma {:induction false} JoinNoDot(xs: seq<string>, sep: string)
    requires NoDot(sep) && forall i :: 0 <= i < |xs| ==> NoDot(xs[i])
    ensures NoDot(Join(xs, sep))
  {
    if |xs| >= 2 {
      JoinNoDot(xs[1..], sep);
    }
  }

  /** The display text starts and ends with a name and holds no ".". */
  lemma FormatEdges(xs: seq<string>)
    requires forall i :: 0 <= i < |xs| ==> CleanOption(xs[i])
    ensures var f := FormatOptionsForDisplay(xs);
      && NoDot(f)
      && (|xs| >= 1 ==> f != "" && !IsSpace(f[0]) && !IsSpace(f[|f| - 1]))
  {
    FormatShape(xs);
    var f := FormatOptionsForDisplay(xs);
    if |xs| >= 1 {
      var last := xs[|xs| - 1];
      assert CleanOption(xs[0]) && CleanOption(last);
      if |xs| >= 2 {
        var init := xs[..|xs| - 1];
        assert forall i :: 0 <= i < |init| ==> init[i] == xs[i];
        JoinNoDot(init, [ArabicComma, ' ']);
        JoinStartsWithFirst(init, [ArabicComma, ' ']);
        assert f[0] == xs[0][0];
      }
      assert f[|f| - 1] == last[|last| - 1];
    }
  }

  lemma {:induction false} JoinStartsWithFirst(xs: seq<string>, sep: string)
    requires |xs| >= 1 && xs[0] != ""
    ensures Join(xs, sep) != "" && Join(xs, sep)[0] == xs[0][0]
  {
  }

  /** Trimming " " + f gives f back when f is empty or has no space at either end. */
  lemma TrimSpaced(f: string)
    requires f == "" || (!IsSpace(f[0]) && !IsSpace(f[|f| - 1]))
    ensures Trim(" " + f) == f
  {
    assert (" " + f)[1..] == f;
    assert TrimStart(" " + f) == f;
  }

  /** A pattern at the very start is the first occurrence, so it is the one cut out. */
  lemma CutLeading(p: string, rest: string)
    ensures ReplaceFirst(p + rest, p, "") == rest
  {
    assert (p + rest)[..|p|] == p;
    assert (p + rest)[|p|..] == rest;
  }

  /** With no "." inside the text, the first "." is the final one. */
  lemma CutFinalDot(f: string)
    requires NoDot(f)
    ensures ReplaceFirst(" " + f + ".", ".", "") == " " + f
  {
    var t := " " + f + ".";
    assert t[|t| - 1..] == ".";
    var k := IndexOf(t, ".").value;
    assert t[k..k + 1] == ".";
    assert t[k] == '.';
    assert t[..|t| - 1] == " " + f;
  }

  /** Cutting the lead-in and the final "." out of the server sentence and trimming leaves the display text. */
  lemma SentenceToText(xs: seq<string>)
    requires forall i :: 0 <= i < |xs| ==> CleanOption(xs[i])
    ensures var f := FormatOptionsForDisplay(xs);
      Trim(ReplaceFirst(ReplaceFirst(RequiredPrefix + " " + f + ".", RequiredPrefix, ""), ".", "")) == f
  {
    var f := FormatOptionsForDisplay(xs);
    FormatEdges(xs);
    assert RequiredPrefix + " " + f + "." == RequiredPrefix + (" " + f + ".");
    CutLeading(RequiredPrefix, " " + f + ".");
    CutFinalDot(f);
    TrimSpaced(f);
  }

  /** The pieces of the display text of two or more names. */
  lemma PiecesOfFormat(xs: seq<string>)
    requires |xs| >= 2 && forall i :: 0 <= i < |xs| ==> CleanOption(xs[i])
    ensures SplitOptions(FormatOptionsForDisplay(xs)) == [xs[0]] + Spaced(xs[1..|xs| - 1]) + [xs[|xs| - 1]]
  {
    var init := xs[..|xs| - 1];
    var last := xs[|xs| - 1];
    FormatShape(xs);
    assert forall i :: 0 <= i < |init| ==> init[i] == xs[i];
    SplitJoined(init, last, "");
    var j := Join(init, [ArabicComma, ' ']);
    assert "" + j + (" " + [Waw] + " " + last) == FormatOptionsForDisplay(xs);
    assert "" + init[0] == xs[0];
    assert init[1..] == xs[1..|xs| - 1];
  }

  /** Trimming the pieces of two or more names gives the names. */
  lemma TrimPieces(xs: seq<string>)
    requires |xs| >= 2 && forall i :: 0 <= i < |xs| ==> CleanOption(xs[i])
    ensures TrimAll([xs[0]] + Spaced(xs[1..|xs| - 1]) + [xs[|xs| - 1]]) == xs
  {
    var mid := Spaced(xs[1..|xs| - 1]);
    var pieces := [xs[0]] + mid + [xs[|xs| - 1]];
    forall i | 0 <= i < |xs| ensures Trim(pieces[i]) == xs[i] {
      if i == 0 {
        assert pieces[i] == xs[i];
        CleanTrimmed(xs[i]);
      } else if i == |xs| - 1 {
        assert pieces[i] == xs[i];
        CleanTrimmed(xs[i]);
      } else {
        assert pieces[i] == mid[i - 1] == " " + xs[i];
        CleanEdges(xs[i]);
        TrimSpaced(xs[i]);
      }
    }
  }

  /** Splitting the display text, trimming and dropping empty pieces gives the names back. */
  lemma TextToNames(xs: seq<string>)
    requires forall i :: 0 <= i < |xs| ==> CleanOption(xs[i])
    ensures Filter(TrimAll(SplitOptions(FormatOptionsForDisplay(xs))), NonEmpty) == xs
  {
    var pieces := SplitOptions(FormatOptionsForDisplay(xs));
    if |xs| == 0 {
      assert pieces == [""];
      assert TrimAll(pieces) == [""];
    } else if |xs| == 1 {
      SplitClean(xs[0]);
      CleanTrimmed(xs[0]);
      assert TrimAll(pieces) == xs;
      FilterAll(xs, NonEmpty);
    } else {
      PiecesOfFormat(xs);
      TrimPieces(xs);
      FilterAll(xs, NonEmpty);
    }
  }

  /**
   * The display form reads back as the list: a server sentence that lists
   * clean group names the way the page displays them yields exactly those
   * names, in order.
   */
  lemma ExtractInvertsFormat(xs: seq<string>)
    requires forall i :: 0 <= i < |xs| ==> CleanOption(xs[i])
    ensures ExtractRequiredOptions(Some(RequiredPrefix + " " + FormatOptionsForDisplay(xs) + ".")) == xs
  {
    SentenceToText(xs);
    TextToNames(xs);
  }

  lemma CleanEdges(x: string)
    requires CleanOption(x)
    ensures x == "" || (!IsSpace(x[0]) && !IsSpace(x[|x| - 1]))
  {
  }

  lemma CleanTrimmed(x: string)
    requires CleanOption(x)
    ensures Trim(x) == x
  {
    assert TrimStart(x) == x;
  }
}
