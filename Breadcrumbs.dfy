/**
 * The breadcrumb trail (components/Breadcrumbs.tsx): the pathname's non-empty
 * `/`-separated segments, one crumb per segment linking to the path up to
 * that segment, labelled through `routeNameMap`, the last one unlinked.
 */
module Breadcrumbs {
  import JsStrings
  import opened Sequences

  /** `routeNameMap`: display names of the known first-level routes. */
  const RouteNames: map<string, string> := map[
    "wheel" := "วงล้อเสี่ยงทาย",
    "bottle" := "หมุนขวด",
    "dice" := "ลูกเต๋าเสี่ยงทาย",
    "cards" := "ไพ่คำสั่ง",
    "games" := "รวมมินิเกม",
    "about" := "เกี่ยวกับเรา"
  ]

  /** One crumb: its link target, its label, and whether it is the final, unlinked one. */
  datatype Crumb = Crumb(to: string, name: string, isLast: bool)

  /** `filter((x) => x)`: the empty string is the only falsy string. */
  function NonEmpty(pieces: seq<string>): (kept: seq<string>)
    ensures IsSubsequence(kept, pieces)
    ensures forall i :: 0 <= i < |kept| ==> kept[i] != ""
    ensures forall x :: x in kept <==> x in pieces && x != ""
    ensures forall x :: multiset(kept)[x] == if x != "" then multiset(pieces)[x] else 0
  {
    if pieces == [] then []
    else
      var rest := NonEmpty(pieces[1..]);
      assert pieces == [pieces[0]] + pieces[1..];
      if pieces[0] != "" then
        assert ([pieces[0]] + rest)[1..] == rest;
        [pieces[0]] + rest
      else rest
  }

  /** `location.pathname.split('/').filter((x) => x)`. */
  function Segments(pathname: string): (segs: seq<string>)
    ensures forall i :: 0 <= i < |segs| ==> segs[i] != "" && '/' !in segs[i]
  {
    var pieces := JsStrings.Split(pathname, '/');
    assert forall x :: x in pieces ==> '/' !in x;
    NonEmpty(pieces)
  }

  /** The target of crumb `i`: `/` and the first `i + 1` segments joined with `/`. */
  function Target(segs: seq<string>, i: nat): string
    requires i < |segs|
  {
    "/" + JsStrings.Join(segs[..i + 1], '/')
  }

  /** Each target extends the previous one by `/` and the next segment. */
  lemma TargetExtendsPrevious(segs: seq<string>, i: nat)
    requires i + 1 < |segs|
    ensures Target(segs, i + 1) == Target(segs, i) + "/" + segs[i + 1]
  {
    assert segs[..i + 2] == segs[..i + 1] + [segs[i + 1]];
    JsStrings.JoinSnoc(segs[..i + 1], segs[i + 1], '/');
  }

  /** Each target is a proper prefix of the next one. */
  lemma TargetIsPrefixOfNext(segs: seq<string>, i: nat)
    requires i + 1 < |segs|
    ensures Target(segs, i) < Target(segs, i + 1)
  {
    TargetExtendsPrevious(segs, i);
    var t := Target(segs, i);
    assert Target(segs, i + 1) == t + ("/" + segs[i + 1]);
  }

  /**
   * The label of a segment: its own entry in routeNameMap, else the segment
   * itself. It is never empty, and it is what `routeNameMap[value] || value`
   * yields for every segment not named like an Object.prototype member.
   */
  function CrumbLabel(segment: string): (name: string)
    ensures segment in RouteNames ==> name == RouteNames[segment]
    ensures segment !in RouteNames ==> name == segment
    ensures segment != "" ==> name != ""
    ensures segment !in ObjectPrototypeMembers ==> CrumbNameAsWritten(segment) == JsString(name)
  {
    if segment in RouteNames then RouteNames[segment] else segment
  }

  /** The crumbs after the home link, for the pathname's segments. */
  function Trail(pathname: string): seq<Crumb>
  {
    Crumbs(Segments(pathname))
  }

  /**
   * `pathnames.map(...)`: crumb `i` links to `/` and the segments up to `i`
   * joined with `/`, each target extending the one before, and only the last
   * crumb is marked last.
   */
  function Crumbs(segs: seq<string>): (trail: seq<Crumb>)
    ensures |trail| == |segs|
    ensures forall i :: 0 <= i < |trail| ==> trail[i].to == "/" + JsStrings.Join(segs[..i + 1], '/')
    ensures forall i :: 0 <= i < |trail| ==> trail[i].name == CrumbLabel(segs[i])
    ensures forall i :: 0 <= i < |trail| ==> (trail[i].isLast <==> i == |trail| - 1)
    ensures forall i :: 0 <= i < |trail| - 1 ==> trail[i].to < trail[i + 1].to
    ensures |trail| > 0 ==> trail[|trail| - 1].to == "/" + JsStrings.Join(segs, '/')
  {
    var trail := seq(|segs|, i requires 0 <= i < |segs| =>
                   Crumb(Target(segs, i), CrumbLabel(segs[i]), i == |segs| - 1));
    forall i | 0 <= i < |trail| - 1
      ensures trail[i].to < trail[i + 1].to
    {
      TargetIsPrefixOfNext(segs, i);
    }
    assert |segs| > 0 ==> segs[..|segs|] == segs;
    trail
  }

  /** A pathname gets no trail exactly when it consists of slashes only, as `/` and `//` do. */
  lemma TrailEmptyIffOnlySlashes(pathname: string)
    ensures Trail(pathname) == [] <==> forall i :: 0 <= i < |pathname| ==> pathname[i] == '/'
  {
    SegmentsEmptyIffOnlySlashes(pathname);
  }

  lemma {:induction false} SegmentsEmptyIffOnlySlashes(s: string)
    ensures Segments(s) == [] <==> forall i :: 0 <= i < |s| ==> s[i] == '/'
    decreases |s|
  {
    if |s| > 0 {
      if s[0] == '/' {
        SegmentsEmptyIffOnlySlashes(s[1..]);
        SegmentsSkipLeadingSlash(s);
        if forall i :: 0 <= i < |s[1..]| ==> s[1..][i] == '/' {
          forall i | 0 <= i < |s| ensures s[i] == '/' {
            if i > 0 { assert s[i] == s[1..][i - 1]; }
          }
        }
      } else {
        SegmentsOfNonSlashStart(s);
      }
    }
  }

  /** A leading `/` only adds an empty piece, which the filter drops. */
  lemma SegmentsSkipLeadingSlash(s: string)
    requires |s| > 0 && s[0] == '/'
    ensures Segments(s) == Segments(s[1..])
  {
    var rest := JsStrings.Split(s[1..], '/');
    assert JsStrings.Split(s, '/') == [""] + rest;
    assert ([""] + rest)[1..] == rest;
  }

  /** A pathname starting with any other character has a first segment. */
  lemma SegmentsOfNonSlashStart(s: string)
    requires |s| > 0 && s[0] != '/'
    ensures Segments(s) != []
  {
    var pieces := JsStrings.Split(s, '/');
    assert pieces[0] == [s[0]] + JsStrings.Split(s[1..], '/')[0];
    assert pieces[0] != "";
    assert pieces[0] in Segments(s);
  }

  /** Dropping the empty pieces leaves a list of non-empty strings as it is. */
  lemma {:induction false} NonEmptyKeepsNonEmpty(pieces: seq<string>)
    requires forall i :: 0 <= i < |pieces| ==> pieces[i] != ""
    ensures NonEmpty(pieces) == pieces
    decreases |pieces|
  {
    if pieces != [] {
      NonEmptyKeepsNonEmpty(pieces[1..]);
    }
  }

  /** A pathname written as `/` and its segments joined by `/` splits back into exactly those segments. */
  lemma SegmentsOfCanonicalPath(segs: seq<string>)
    requires forall i :: 0 <= i < |segs| ==> segs[i] != "" && '/' !in segs[i]
    ensures Segments("/" + JsStrings.Join(segs, '/')) == segs
  {
    var joined := JsStrings.Join(segs, '/');
    var path := "/" + joined;
    assert path[0] == '/' && path[1..] == joined;
    var pieces := JsStrings.Split(joined, '/');
    assert JsStrings.Split(path, '/') == [""] + pieces;
    if segs == [] {
      assert pieces == [""];
      assert NonEmpty([""] + pieces) == [];
    } else {
      JsStrings.SplitJoin(segs, '/');
      NonEmptyKeepsNonEmpty(segs);
      assert ([""] + segs)[1..] == segs;
      assert NonEmpty([""] + segs) == NonEmpty(segs);
    }
  }

  /** For a pathname without empty segments or a trailing slash, the last crumb targets the pathname itself. */
  lemma LastCrumbTargetsCanonicalPath(segs: seq<string>)
    requires |segs| > 0
    requires forall i :: 0 <= i < |segs| ==> segs[i] != "" && '/' !in segs[i]
    ensures var path := "/" + JsStrings.Join(segs, '/');
            |Trail(path)| == |segs| && Trail(path)[|segs| - 1].to == path
  {
    SegmentsOfCanonicalPath(segs);
  }

  // ------------------------------------------------------------------------
  // `routeNameMap[value] || value` as JavaScript evaluates it on a plain object

  /** The members every object literal inherits from Object.prototype. */
  const ObjectPrototypeMembers: set<string> := {
    "constructor", "hasOwnProperty", "isPrototypeOf", "propertyIsEnumerable",
    "toString", "toLocaleString", "valueOf", "__proto__",
    "__defineGetter__", "__defineSetter__", "__lookupGetter__", "__lookupSetter__"
  }

  /** What a property read on `routeNameMap` yields. */
  datatype JsValue = JsString(s: string) | InheritedMember(name: string) | Undefined

  predicate Truthy(v: JsValue)
  {
    match v
    case JsString(s) => s != ""
    case InheritedMember(_) => true
    case Undefined => false
  }

  /** `routeNameMap[key]`: an own entry, else a member inherited from Object.prototype, else undefined. */
  function RouteNameMapGet(key: string): JsValue
  {
    if key in RouteNames then JsString(RouteNames[key])
    else if key in ObjectPrototypeMembers then InheritedMember(key)
    else Undefined
  }

  /** `routeNameMap[value] || value`, line 33 as written. */
  function CrumbNameAsWritten(value: string): JsValue
  {
    var looked := RouteNameMapGet(value);
    if Truthy(looked) then looked else JsString(value)
  }

  /** On a segment named like an inherited member, line 33 as written yields that member, not a string. */
  lemma InheritedMemberIsNoLabel(value: string)
    requires value in ObjectPrototypeMembers
    ensures !CrumbNameAsWritten(value).JsString?
  {
    assert value !in RouteNames;
  }

  /** The path `/constructor` is one such input: its one crumb gets an inherited function as its label. */
  lemma ConstructorSegmentHasNoLabel()
    ensures Segments("/constructor") == ["constructor"]
    ensures CrumbNameAsWritten("constructor") == InheritedMember("constructor")
  {
    var segs := ["constructor"];
    assert JsStrings.Join(segs, '/') == "constructor";
    SegmentsOfCanonicalPath(segs);
    assert "/" + "constructor" == "/constructor";
    assert "constructor" in ObjectPrototypeMembers;
    InheritedMemberIsNoLabel("constructor");
  }
}
