/** Keep-a-Changelog order: where `_insert_item` creates a subsection. */
module ChangelogOrder {
  import opened Common
  import opened ChangelogParse
  import opened ChangelogInsert

  /** The order of the known subsections; every other name comes after them. */
  const ORDER: seq<string> := ["Added", "Changed", "Deprecated", "Removed", "Fixed", "Security"]

  ghost predicate Ahead(a: string, b: string) {
    || (exists i, j :: 0 <= i < j < |ORDER| && ORDER[i] == a && ORDER[j] == b)
    || (a in ORDER && b !in ORDER)
  }

  lemma RankAt(name: string)
    ensures Rank(name) <= |ORDER| == 6
    ensures Rank(name) < 6 ==> ORDER[Rank(name)] == name
    ensures forall i :: 0 <= i < 6 && ORDER[i] == name ==> i == Rank(name)
  {
    OrderDistinct();
  }

  lemma OrderDistinct()
    ensures |ORDER| == 6 && Distinct(ORDER)
  {
    assert |"Added"| == 5 && |"Changed"| == 7 && |"Deprecated"| == 10 && |"Removed"| == 7;
    assert |"Fixed"| == 5 && |"Security"| == 8;
    assert "Added"[0] != "Fixed"[0] && "Changed"[0] != "Removed"[0];
  }

  lemma AheadByRank(a: string, b: string)
    ensures Ahead(a, b) <==> Rank(a) < Rank(b)
  {
    hide Rank;
    RankAt(a);
    RankAt(b);
    hide ORDER;
    if Rank(a) < Rank(b) {
      assert ORDER[Rank(a)] == a;
      if b in ORDER {
        var j :| 0 <= j < |ORDER| && ORDER[j] == b;
        assert j == Rank(b);
      }
    }
    if Ahead(a, b) {
      if i, j :| 0 <= i < j < |ORDER| && ORDER[i] == a && ORDER[j] == b {
      } else {
        var i :| 0 <= i < |ORDER| && ORDER[i] == a;
        assert Rank(b) == 6;
      }
    }
  }

  ghost predicate HasSub(body: seq<Line>, name: string) {
    exists i :: 0 <= i < |body| && IsSub(body[i]) && SubName(body[i]) == name
  }

  /** Where a subsection main lacks is created: the headings before it are not behind it in the order, and
      it is ahead of the next one. A subsection main has gets no second heading. */
  lemma CreatedInPlace(body: seq<Line>, item: OwnItem) returns (x: seq<Line>, y: seq<Line>)
    requires Strip(item.subsection) == item.subsection && ItemLines(item.lines)
    ensures SubLines(body) == x + y && AllSubs(x) && AllSubs(y)
    ensures SubLines(InsertItem(body, item))
      == if HasSub(body, item.subsection) then x + y else x + ["### " + item.subsection] + y
    ensures !HasSub(body, item.subsection) ==>
              && (forall i :: 0 <= i < |x| ==> !Ahead(item.subsection, SubName(x[i])))
              && (y != [] ==> Ahead(item.subsection, SubName(y[0])))
  {
    hide Place, FindSub, FindHigher, SubLines, Strip, ItemLines, SubName, Rank, Ahead;
    PlaceParts(body, item);
    PlaceInside(body, item);
    var at, lines := Place(body, item).0, Place(body, item).1;
    x, y := SubLines(body[..at]), SubLines(body[at..]);
    assert body == body[..at] + body[at..];
    SubLinesConcat(body[..at], body[at..]);
    SubLinesConcat(body[..at] + lines, body[at..]);
    SubLinesConcat(body[..at], lines);
    SubsAre(body[..at]);
    SubsAre(body[at..]);
    SpliceSubs(body, item);
    if HasSub(body, item.subsection) {
      assert x + [] == x;
    } else {
      BeforeSplice(body, item);
      BehindSplice(body, item);
    }
  }

  ghost predicate AllSubs(lines: seq<Line>) {
    forall i :: 0 <= i < |lines| ==> IsSub(lines[i])
  }

  lemma SubsAre(body: seq<Line>)
    ensures AllSubs(SubLines(body))
    ensures forall h :: h in SubLines(body) ==> h in body
  {
    hide SubLines;
    SubLinesKeep(body);
    KeepAre(body, iset line | IsSub(line));
    forall i | 0 <= i < |SubLines(body)| ensures IsSub(SubLines(body)[i]) {
      assert SubLines(body)[i] in SubLines(body);
    }
  }

  /** The spliced lines hold the heading, or none. */
  lemma SpliceSubs(body: seq<Line>, item: OwnItem)
    requires ItemLines(item.lines)
    ensures SubLines(Place(body, item).1)
      == if HasSub(body, item.subsection) then [] else [SUBSECTION_PREFIX + item.subsection]
  {
    hide Rank, SubName, ItemLines, SubLines;
    var heading := SUBSECTION_PREFIX + item.subsection;
    var i := FindSub(body, item.subsection, 0);
    assert HasSub(body, item.subsection) <==> i < |body|;
    ItemHasNoHeading(item.lines);
    NoSubLines(item.lines);
    assert !IsSub("");
    NoSubLines([""]);
    NoSubLines(["", ""]);
    var at, lines := Place(body, item).0, Place(body, item).1;
    if i < |body| {
      SubLinesConcat([""], item.lines);
    } else {
      OneHeading(heading);
      if FindHigher(body, Rank(item.subsection), 0) < |body| {
        assert [heading, ""] + item.lines + [""] == ([heading] + [""]) + item.lines + [""];
        SubLinesConcat([heading] + [""] + item.lines, [""]);
        SubLinesConcat([heading] + [""], item.lines);
        SubLinesConcat([heading], [""]);
      } else {
        assert ["", heading, ""] + item.lines == [""] + [heading] + [""] + item.lines;
        SubLinesConcat([""] + [heading] + [""], item.lines);
        SubLinesConcat([""] + [heading], [""]);
        SubLinesConcat([""], [heading]);
      }
    }
  }

  lemma OneHeading(heading: Line)
    requires IsSub(heading)
    ensures SubLines([heading]) == [heading]
  {
    assert [heading][1..] == [];
  }

  lemma BeforeSplice(body: seq<Line>, item: OwnItem)
    requires !HasSub(body, item.subsection)
    ensures Place(body, item).0 <= |body|
    ensures var x := SubLines(body[..Place(body, item).0]);
            AllSubs(x) && forall i :: 0 <= i < |x| ==> !Ahead(item.subsection, SubName(x[i]))
  {
    hide Rank, SubName, SubLines, Ahead;
    PlaceInside(body, item);
    var at := Place(body, item).0;
    assert FindSub(body, item.subsection, 0) == |body|;
    SubsAre(body[..at]);
    var x := SubLines(body[..at]);
    forall i | 0 <= i < |x| ensures !Ahead(item.subsection, SubName(x[i])) {
      assert x[i] in body[..at];
      var k :| 0 <= k < at && body[k] == x[i];
      AheadByRank(item.subsection, SubName(x[i]));
    }
  }

  lemma BehindSplice(body: seq<Line>, item: OwnItem)
    requires !HasSub(body, item.subsection)
    ensures Place(body, item).0 <= |body|
    ensures var y := SubLines(body[Place(body, item).0..]);
            AllSubs(y) && (y != [] ==> Ahead(item.subsection, SubName(y[0])))
  {
    hide Rank, SubName, Ahead;
    PlaceInside(body, item);
    var at := Place(body, item).0;
    assert FindSub(body, item.subsection, 0) == |body|;
    var j := FindHigher(body, Rank(item.subsection), 0);
    SubsAre(body[at..]);
    if j < |body| {
      assert body[at..][0] == body[j];
      AheadByRank(item.subsection, SubName(body[j]));
    } else {
      forall k | at <= k < |body| ensures !IsSub(body[k]) {
        BlankLine(body[k]);
      }
      NoSubLines(body[at..]);
    }
  }

  /** No heading stands behind one it should be ahead of. */
  ghost predicate Ordered(body: seq<Line>) {
    var subs := SubLines(body);
    AllSubs(subs) && forall i, j :: 0 <= i < j < |subs| ==> !Ahead(SubName(subs[j]), SubName(subs[i]))
  }

  /** An insertion keeps the subsections in Keep-a-Changelog order. */
  lemma InsertKeepsOrder(body: seq<Line>, item: OwnItem)
    requires Strip(item.subsection) == item.subsection && ItemLines(item.lines) && Ordered(body)
    ensures Ordered(InsertItem(body, item))
  {
    hide Rank, Strip, ItemLines, SubName, Ahead, SubLines, InsertItem;
    var x, y := CreatedInPlace(body, item);
    if !HasSub(body, item.subsection) {
      var name := item.subsection;
      HeadingNames(name);
      var subs, was := x + ["### " + name] + y, x + y;
      assert SubLines(InsertItem(body, item)) == subs;
      forall i, j | 0 <= i < j < |subs| ensures !Ahead(SubName(subs[j]), SubName(subs[i])) {
        var a, b := SubName(subs[i]), SubName(subs[j]);
        AheadByRank(b, a);
        if i == |x| {
          assert b == SubName(was[j - 1]) && y[0] == was[|x|];
          AheadByRank(name, SubName(y[0]));
          AheadByRank(b, SubName(y[0]));
        } else if j == |x| {
          assert a == SubName(x[i]);
        } else {
          assert a == SubName(was[if i < |x| then i else i - 1]) && b == SubName(was[if j < |x| then j else j - 1]);
        }
      }
    }
  }

  /** The text of an insertion. The bullet's lines stand together behind an empty line, all other lines keep
      their place around them, and what is added besides is that empty line, or the heading between empty
      lines. An existing subsection takes the bullet behind its last line that is not blank, a new one goes
      in front of the next heading or behind the last line that is not blank. */
  lemma InsertedText(body: seq<Line>, item: OwnItem) returns (at: nat, before: seq<Line>, behind: seq<Line>)
    ensures at <= |body| && InsertItem(body, item) == body[..at] + before + item.lines + behind + body[at..]
    ensures before != [] && before[|before| - 1] == ""
    ensures if HasSub(body, item.subsection) then
              && before == [""] && behind == []
              && (exists i, e :: SubSpan(body, item.subsection, i, e) && TextEnds(body, i, at, e))
            else if at < |body| && IsSub(body[at]) then
              before == ["### " + item.subsection, ""] && behind == [""]
            else
              before == ["", "### " + item.subsection, ""] && behind == [] && TextEnds(body, 0, at, |body|)
  {
    hide Rank, SubName, Place, InsertItem, NextSub, AfterText, FindSub, FindHigher, SubSpan, TextEnds;
    PlaceInside(body, item);
    PlaceParts(body, item);
    at := Place(body, item).0;
    before, behind := Lead(body, item), Trail(body, item);
    SplicedText(body, item);
    Splice(body, at, before, item.lines, behind);
  }

  lemma Splice(body: seq<Line>, at: nat, before: seq<Line>, lines: seq<Line>, behind: seq<Line>)
    requires at <= |body|
    ensures body[..at] + (before + lines + behind) + body[at..] == body[..at] + before + lines + behind + body[at..]
  {
  }

  lemma SplicedText(body: seq<Line>, item: OwnItem)
    ensures var at := Place(body, item).0;
            && at <= |body| && InsertItem(body, item) == body[..at] + Place(body, item).1 + body[at..]
            && if HasSub(body, item.subsection) then
                 && Lead(body, item) == [""] && Trail(body, item) == []
                 && (exists i, e :: SubSpan(body, item.subsection, i, e) && TextEnds(body, i, at, e))
               else if at < |body| && IsSub(body[at]) then
                 Lead(body, item) == ["### " + item.subsection, ""] && Trail(body, item) == [""]
               else
                 && Lead(body, item) == ["", "### " + item.subsection, ""] && Trail(body, item) == []
                 && TextEnds(body, 0, at, |body|)
  {
    hide Rank, SubName;
    PlaceInside(body, item);
    var i, at := FindSub(body, item.subsection, 0), Place(body, item).0;
    assert HasSub(body, item.subsection) <==> i < |body|;
    if i < |body| {
      var e := NextSub(body, i + 1);
      NotBlankHeading(body[i]);
      assert SubSpan(body, item.subsection, i, e) && TextEnds(body, i, at, e);
    } else if at < |body| && FindHigher(body, Rank(item.subsection), 0) == |body| {
      BlankLine(body[at]);
    }
  }

  lemma NotBlankHeading(line: Line)
    ensures IsSub(line) ==> !Blank(line)
  {
    FirstChar(line);
  }

  /** The first subsection of the name: its heading at `i`, its last line before `e`. */
  ghost predicate SubSpan(body: seq<Line>, name: string, i: int, e: int) {
    && 0 <= i < e <= |body| && IsSub(body[i]) && SubName(body[i]) == name
    && (forall k :: 0 <= k < i && IsSub(body[k]) ==> SubName(body[k]) != name)
    && (forall k :: i < k < e ==> !IsSub(body[k])) && (e == |body| || IsSub(body[e]))
  }

  /** `at` is behind the last line of `body[lo..hi]` that is not blank. */
  ghost predicate TextEnds(body: seq<Line>, lo: int, at: int, hi: int) {
    && 0 <= lo <= at <= hi <= |body| && (at == lo || !Blank(body[at - 1]))
    && forall k :: at <= k < hi ==> Blank(body[k])
  }
}
