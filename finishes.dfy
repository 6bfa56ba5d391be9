/** The "finishes" text field of both admin product forms (src/pages/Admin.tsx and
    src/pages/admin/Products.tsx): a comma-separated list that is split on commas, each
    piece trimmed, and the empty pieces dropped. The edit forms pre-fill the field with
    the stored finishes joined by ", ". */
module Finishes {
  import opened Text
  import opened Seqs

  function TrimAll(parts: seq<string>): (r: seq<string>)
    ensures |r| == |parts|
    ensures forall k :: 0 <= k < |parts| ==> r[k] == Trim(parts[k])
  {
    seq(|parts|, k requires 0 <= k < |parts| => Trim(parts[k]))
  }

  predicate NonEmpty(s: string) { s != "" }

  /** A well-formed finish: not empty, no white space at either end, no comma. */
  predicate IsFinish(s: string) {
    s != "" && IsTrimmed(s) && ',' !in s
  }

  /** `raw.split(',').map(f => f.trim()).filter(Boolean)`. */
  function ParseFinishes(raw: string): seq<string> {
    Filter(TrimAll(Split(raw, ',')), NonEmpty)
  }

  /** Every parsed finish is well formed: not empty, trimmed, and without a comma. */
  lemma ParseFinishesWellFormed(raw: string)
    ensures forall k :: 0 <= k < |ParseFinishes(raw)| ==> IsFinish(ParseFinishes(raw)[k])
  {
    var pieces := Split(raw, ',');
    var trimmed := TrimAll(pieces);
    var r := Filter(trimmed, NonEmpty);
    forall k | 0 <= k < |r| ensures IsFinish(r[k]) {
      assert r[k] in trimmed;
      var j :| 0 <= j < |trimmed| && trimmed[j] == r[k];
      TrimKeepsOut(pieces[j], ',');
    }
  }

  /** Trimming never adds a character. */
  lemma TrimKeepsOut(s: string, c: char)
    requires c !in s
    ensures c !in Trim(s)
  {
    var r := Trim(s);
    TrimSpec(s);
    var i :| TrimCut(s, r, i);
    forall k | 0 <= k < |r| ensures r[k] != c {
      assert r[k] == s[i + k];
    }
  }

  /** `finishes.join(", ")`, the edit form's default value. */
  function FormValue(finishes: seq<string>): string {
    if |finishes| == 0 then ""
    else if |finishes| == 1 then finishes[0]
    else finishes[0] + ", " + FormValue(finishes[1..])
  }

  lemma FormValueCons(finishes: seq<string>)
    requires |finishes| >= 2
    ensures FormValue(finishes) == finishes[0] + [','] + (" " + FormValue(finishes[1..]))
  {
    var rest := FormValue(finishes[1..]);
    assert ", " == [','] + " ";
    Regroup(finishes[0], [','], " ", rest);
  }

  /** The pieces on either side of a comma are parsed independently, in order. */
  lemma ParseFinishesAppend(a: string, b: string)
    ensures ParseFinishes(a + [','] + b) == ParseFinishes(a) + ParseFinishes(b)
  {
    SplitAppend(a, b, ',');
    var pa, pb := Split(a, ','), Split(b, ',');
    assert TrimAll(pa + pb) == TrimAll(pa) + TrimAll(pb);
    FilterConcat(TrimAll(pa), TrimAll(pb), NonEmpty);
  }

  /** A comma-free text gives its trimmed form, or nothing when that is empty. */
  lemma ParseFinishesPiece(s: string)
    requires ',' !in s
    ensures ParseFinishes(s) == if Trim(s) == "" then [] else [Trim(s)]
  {
    SplitNoSeparator(s, ',');
    var t := Trim(s);
    var trimmed := TrimAll([s]);
    assert trimmed == [t];
    FilterSingle(t, NonEmpty);
  }

  lemma FilterSingle<T(!new)>(x: T, keep: T -> bool)
    ensures Filter([x], keep) == if keep(x) then [x] else []
  {
    assert [x][1..] == [];
  }

  lemma TrimStartSkipsSpace(c: char, s: string)
    requires IsSpace(c)
    ensures TrimStart([c] + s) == TrimStart(s)
  {
    assert ([c] + s)[1..] == s;
  }

  /** A space before the first piece makes no difference. */
  lemma ParseFinishesLeadingSpace(s: string)
    ensures ParseFinishes(" " + s) == ParseFinishes(s)
  {
    var pieces := Split(s, ',');
    SplitLeadingSpace(s);
    TrimLeadingSpace(pieces[0]);
    TrimAllSameHead(" " + pieces[0], pieces[0], pieces[1..]);
    DropOneLess(pieces, 0);
  }

  /** The space joins the first piece. */
  lemma SplitLeadingSpace(s: string)
    ensures Split(" " + s, ',') == [" " + Split(s, ',')[0]] + Split(s, ',')[1..]
  {
    DropFront(" ", s);
  }

  lemma TrimLeadingSpace(s: string)
    ensures Trim(" " + s) == Trim(s)
  {
    TrimStartSkipsSpace(' ', s);
  }

  /** Pieces that trim alike give the same trimmed list. */
  lemma TrimAllSameHead(x: string, y: string, rest: seq<string>)
    requires Trim(x) == Trim(y)
    ensures TrimAll([x] + rest) == TrimAll([y] + rest)
  {
    var a, b := TrimAll([x] + rest), TrimAll([y] + rest);
    forall k | 0 <= k < |a| ensures a[k] == b[k] {
      if k > 0 {
        assert ([x] + rest)[k] == ([y] + rest)[k];
      }
    }
  }

  /** One step of the round trip: the first finish, then whatever the rest parses to. */
  lemma ParseFormValueStep(finishes: seq<string>)
    requires |finishes| >= 2 && IsFinish(finishes[0])
    ensures ParseFinishes(FormValue(finishes)) == [finishes[0]] + ParseFinishes(FormValue(finishes[1..]))
  {
    var head, rest := finishes[0], FormValue(finishes[1..]);
    FormValueCons(finishes);
    ParseFinishesAppend(head, " " + rest);
    ParseFinishesLeadingSpace(rest);
    ParseFinishesPiece(head);
    TrimOfTrimmed(head);
  }

  /** Re-saving an edit form whose finishes field was left at its default gives back
      the stored finishes, provided each of them is a well-formed finish. */
  lemma {:induction false} ParseFormValue(finishes: seq<string>)
    requires forall k :: 0 <= k < |finishes| ==> IsFinish(finishes[k])
    ensures ParseFinishes(FormValue(finishes)) == finishes
  {
    if |finishes| == 0 {
      ParseFinishesPiece("");
      TrimOfTrimmed("");
    } else if |finishes| == 1 {
      ParseFinishesPiece(finishes[0]);
      TrimOfTrimmed(finishes[0]);
    } else {
      var tail := finishes[1..];
      assert forall k :: 0 <= k < |tail| ==> tail[k] == finishes[k + 1];
      ParseFormValueStep(finishes);
      ParseFormValue(tail);
      assert [finishes[0]] + tail == finishes;
    }
  }
}
