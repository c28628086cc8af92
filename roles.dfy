/** Roles: which group a request path names, and the permission checks built
    on group membership (views.py: `Manager`, both `get_permissions`,
    `extract_role_name`). */
module Roles {
  import opened Types

  const MANAGER_GROUP := "Manager"
  const CREW_GROUP := "Delivery crew"
  const MANAGER_SEGMENT := "manager"
  const CREW_SEGMENT := "delivery-crew"

  // ---------------------------------------------------------------------
  // Python's `path.split('/')`
  // ---------------------------------------------------------------------

  /** The pieces of `rest` between separators, the first one prefixed by
      the characters `seg` already collected. */
  function SplitFrom(rest: string, seg: string): (parts: seq<string>)
    requires '/' !in seg
    ensures |parts| >= 1
    ensures forall i :: 0 <= i < |parts| ==> '/' !in parts[i]
    decreases |rest|
  {
    if rest == [] then [seg]
    else if rest[0] == '/' then [seg] + SplitFrom(rest[1..], "")
    else SplitFrom(rest[1..], seg + [rest[0]])
  }

  /** `path.split('/')`: never empty, and no piece holds a separator. */
  function Split(path: string): (parts: seq<string>)
    ensures |parts| >= 1
    ensures forall i :: 0 <= i < |parts| ==> '/' !in parts[i]
  {
    SplitFrom(path, "")
  }

  /** `'/'.join(parts)`, the inverse of `Split`. */
  function Join(parts: seq<string>): string
    requires |parts| >= 1
  {
    if |parts| == 1 then parts[0] else parts[0] + "/" + Join(parts[1..])
  }

  lemma {:induction false} JoinSplitFrom(rest: string, seg: string)
    requires '/' !in seg
    ensures Join(SplitFrom(rest, seg)) == seg + rest
    decreases |rest|
  {
    if rest == [] {
      assert seg + rest == seg;
    } else if rest[0] == '/' {
      var tail := SplitFrom(rest[1..], "");
      JoinSplitFrom(rest[1..], "");
      assert ([seg] + tail)[1..] == tail;
      assert rest == "/" + rest[1..];
    } else {
      JoinSplitFrom(rest[1..], seg + [rest[0]]);
      assert rest == [rest[0]] + rest[1..];
      assert seg + [rest[0]] + rest[1..] == seg + rest;
    }
  }

  /** Joining the pieces gives back the path. */
  lemma JoinSplit(path: string)
    ensures Join(Split(path)) == path
  {
    JoinSplitFrom(path, "");
  }

  lemma {:induction false} SplitFromAppend(w: string, rest: string, seg: string)
    requires '/' !in seg && '/' !in w
    ensures SplitFrom(w + rest, seg) == SplitFrom(rest, seg + w)
    decreases |w|
  {
    if w == [] {
      assert w + rest == rest;
      assert seg + w == seg;
    } else {
      assert w[0] in w;
      assert (w + rest)[0] == w[0];
      assert (w + rest)[1..] == w[1..] + rest;
      assert forall c :: c in w[1..] ==> c in w;
      SplitFromAppend(w[1..], rest, seg + [w[0]]);
      assert seg + [w[0]] + w[1..] == seg + w;
    }
  }

  /** Splitting a join of separator-free pieces gives back the pieces. */
  lemma {:induction false} SplitJoin(parts: seq<string>)
    requires |parts| >= 1
    requires forall i :: 0 <= i < |parts| ==> '/' !in parts[i]
    ensures Split(Join(parts)) == parts
    decreases |parts|
  {
    if |parts| == 1 {
      SplitFromAppend(parts[0], "", "");
      assert parts[0] + "" == parts[0];
      assert "" + parts[0] == parts[0];
    } else {
      var tailPath := Join(parts[1..]);
      assert Join(parts) == parts[0] + ("/" + tailPath);
      SplitFromAppend(parts[0], "/" + tailPath, "");
      assert "" + parts[0] == parts[0];
      assert ("/" + tailPath)[1..] == tailPath;
      SplitJoin(parts[1..]);
      assert [parts[0]] + parts[1..] == parts;
    }
  }

  lemma {:induction false} JoinConcat(xs: seq<string>, ys: seq<string>)
    requires |xs| >= 1 && |ys| >= 1
    ensures Join(xs + ys) == Join(xs) + "/" + Join(ys)
    decreases |xs|
  {
    if |xs| == 1 {
      assert (xs + ys)[1..] == ys;
    } else {
      assert (xs + ys)[1..] == xs[1..] + ys;
      JoinConcat(xs[1..], ys);
    }
  }

  /** Splitting at a separator splits the pieces the same way. */
  lemma SplitConcat(a: string, b: string)
    ensures Split(a + "/" + b) == Split(a) + Split(b)
  {
    JoinSplit(a);
    JoinSplit(b);
    JoinConcat(Split(a), Split(b));
    var both := Split(a) + Split(b);
    forall i | 0 <= i < |both|
      ensures '/' !in both[i]
    {
      if i < |Split(a)| { assert both[i] == Split(a)[i]; }
      else { assert both[i] == Split(b)[i - |Split(a)|]; }
    }
    SplitJoin(both);
  }

  // ---------------------------------------------------------------------
  // Whole-segment matching, defined without `Split`
  // ---------------------------------------------------------------------

  /** `seg` occurs in `path` at position `i`, bounded on each side by a
      separator or by an end of the path. */
  predicate SegmentAt(path: string, seg: string, i: nat)
  {
    && i + |seg| <= |path|
    && path[i..i + |seg|] == seg
    && (i == 0 || path[i - 1] == '/')
    && (i + |seg| == |path| || path[i + |seg|] == '/')
  }

  ghost predicate HasSegment(path: string, seg: string)
  {
    exists i: nat :: SegmentAt(path, seg, i)
  }

  /** In one separator-free piece, the only whole segment is the piece. */
  lemma SegmentOfPiece(p: string, seg: string, i: nat)
    requires '/' !in p
    requires SegmentAt(p, seg, i)
    ensures seg == p
  {
    assert forall j :: 0 <= j < |p| ==> p[j] != '/';
    assert i == 0;
    assert i + |seg| == |p|;
    assert p[0..|p|] == p;
  }

  /** A segment that ends inside `p` in `p + "/" + rest` is `p` itself. */
  lemma SegmentInFront(p: string, rest: string, seg: string, i: nat)
    requires '/' !in p
    requires SegmentAt(p + "/" + rest, seg, i) && i + |seg| <= |p|
    ensures seg == p
  {
    var path := p + "/" + rest;
    var k := |p|;
    assert forall j :: 0 <= j < k ==> path[j] == p[j] && p[j] != '/';
    assert path[k] == '/';
    assert i == 0;
    assert i + |seg| == k;
    assert path[0..k] == p;
  }

  /** A segment that starts after the first separator of `p + "/" + rest`
      is a segment of `rest`. */
  lemma SegmentInBack(p: string, rest: string, seg: string, i: nat)
    requires SegmentAt(p + "/" + rest, seg, i) && i > |p|
    ensures SegmentAt(rest, seg, i - |p| - 1)
  {
    var path := p + "/" + rest;
    var j := i - |p| - 1;
    assert path[i..i + |seg|] == rest[j..j + |seg|];
    assert j > 0 ==> path[i - 1] == rest[j - 1];
    assert j + |seg| < |rest| ==> path[i + |seg|] == rest[j + |seg|];
  }

  /** A segment found in `p + "/" + rest` lies wholly in `p` or wholly in `rest`. */
  lemma SegmentOfJoined(p: string, rest: string, seg: string, i: nat)
    requires '/' !in p && '/' !in seg
    requires SegmentAt(p + "/" + rest, seg, i)
    ensures seg == p || (i > |p| && SegmentAt(rest, seg, i - |p| - 1))
  {
    var path := p + "/" + rest;
    var k := |p|;
    assert i + |seg| <= k || i > k by {
      assert path[k] == '/';
      assert forall j :: 0 <= j < |seg| ==> seg[j] != '/';
      assert forall j :: i <= j < i + |seg| ==> path[j] == seg[j - i];
    }
    if i + |seg| <= k {
      SegmentInFront(p, rest, seg, i);
    } else {
      SegmentInBack(p, rest, seg, i);
    }
  }

  /** `p` itself is a whole segment at the front of `p + "/" + rest`, and a
      whole segment of `rest` stays one after the prefix. */
  lemma SegmentsOfJoined(p: string, rest: string, seg: string, j: nat)
    ensures SegmentAt(p + "/" + rest, p, 0)
    ensures SegmentAt(rest, seg, j) ==> SegmentAt(p + "/" + rest, seg, j + |p| + 1)
  {
    var path := p + "/" + rest;
    var k := |p|;
    assert path[0..k] == p;
    if SegmentAt(rest, seg, j) {
      assert path[j + k + 1..j + k + 1 + |seg|] == rest[j..j + |seg|];
      if j > 0 { assert path[j + k] == rest[j - 1]; }
      if j + |seg| < |rest| { assert path[j + k + 1 + |seg|] == rest[j + |seg|]; }
    }
  }

  /** A separator-free `seg` is one of the pieces exactly when it occurs as a
      whole segment of their join. */
  lemma {:induction false} SegmentInJoin(parts: seq<string>, seg: string)
    requires |parts| >= 1
    requires forall i :: 0 <= i < |parts| ==> '/' !in parts[i]
    requires '/' !in seg
    ensures seg in parts <==> HasSegment(Join(parts), seg)
    decreases |parts|
  {
    var p := parts[0];
    if |parts| == 1 {
      if seg in parts {
        assert p[0..|p|] == p;
        assert SegmentAt(Join(parts), seg, 0);
      }
      if HasSegment(Join(parts), seg) {
        var i: nat :| SegmentAt(Join(parts), seg, i);
        SegmentOfPiece(p, seg, i);
      }
    } else {
      var rest := parts[1..];
      assert '/' !in p;
      SegmentInJoin(rest, seg);
      assert Join(parts) == p + "/" + Join(rest);
      assert parts == [p] + rest;
      if seg in parts {
        if seg == p {
          SegmentsOfJoined(p, Join(rest), seg, 0);
        } else {
          assert seg in rest;
          var j: nat :| SegmentAt(Join(rest), seg, j);
          SegmentsOfJoined(p, Join(rest), seg, j);
        }
      }
      if HasSegment(Join(parts), seg) {
        var i: nat :| SegmentAt(Join(parts), seg, i);
        SegmentOfJoined(p, Join(rest), seg, i);
        if seg != p {
          assert SegmentAt(Join(rest), seg, i - |p| - 1);
        }
      }
    }
  }

  /** A separator-free `seg` is one of `path.split('/')` exactly when it
      occurs in `path` as a whole segment. */
  lemma SplitMembership(path: string, seg: string)
    requires '/' !in seg
    ensures seg in Split(path) <==> HasSegment(path, seg)
  {
    JoinSplit(path);
    SegmentInJoin(Split(path), seg);
  }

  // ---------------------------------------------------------------------
  // extract_role_name
  // ---------------------------------------------------------------------

  /** The group a request path refers to; `None` is Python's implicit `None`. */
  function ExtractRoleName(path: string): (r: Option<string>)
    ensures r.Some? ==> r.value == MANAGER_GROUP || r.value == CREW_GROUP
  {
    var parts := Split(path);
    if MANAGER_SEGMENT in parts then Some(MANAGER_GROUP)
    else if CREW_SEGMENT in parts then Some(CREW_GROUP)
    else None
  }

  /** The role is decided by whole segments: "manager" first, then
      "delivery-crew", otherwise no role. */
  lemma ExtractRoleNameBySegment(path: string)
    ensures ExtractRoleName(path) == Some(MANAGER_GROUP) <==> HasSegment(path, MANAGER_SEGMENT)
    ensures (ExtractRoleName(path) == Some(CREW_GROUP))
              <==> (!HasSegment(path, MANAGER_SEGMENT) && HasSegment(path, CREW_SEGMENT))
    ensures (ExtractRoleName(path) == None)
              <==> (!HasSegment(path, MANAGER_SEGMENT) && !HasSegment(path, CREW_SEGMENT))
  {
    assert '/' !in MANAGER_SEGMENT;
    assert '/' !in CREW_SEGMENT;
    SplitMembership(path, MANAGER_SEGMENT);
    SplitMembership(path, CREW_SEGMENT);
  }

  /** Every path routed to the manager group views names the Manager group,
      whatever comes before and after it. */
  lemma ManagerRoute(prefix: string, suffix: string)
    ensures ExtractRoleName(prefix + "/groups/manager/" + suffix) == Some(MANAGER_GROUP)
  {
    var path := prefix + "/groups/manager/" + suffix;
    var i := |prefix| + 8;
    assert path[i..i + 7] == MANAGER_SEGMENT;
    assert SegmentAt(path, MANAGER_SEGMENT, i);
    ExtractRoleNameBySegment(path);
  }

  /** The pieces of a path built as prefix, separator-free middle pieces,
      suffix. */
  lemma RoutePieces(prefix: string, middle: seq<string>, suffix: string)
    requires |middle| >= 1
    requires forall i :: 0 <= i < |middle| ==> '/' !in middle[i]
    ensures Split(prefix + "/" + Join(middle) + "/" + suffix) == Split(prefix) + middle + Split(suffix)
  {
    SplitConcat(prefix + "/" + Join(middle), suffix);
    SplitConcat(prefix, Join(middle));
    SplitJoin(middle);
  }

  /** A path routed to the delivery-crew views names the Delivery crew group,
      unless something around the route is itself a "manager" segment. */
  lemma CrewRoute(prefix: string, suffix: string)
    requires !HasSegment(prefix, MANAGER_SEGMENT) && !HasSegment(suffix, MANAGER_SEGMENT)
    ensures ExtractRoleName(prefix + "/groups/delivery-crew/" + suffix) == Some(CREW_GROUP)
  {
    var middle := ["groups", "delivery-crew"];
    assert Join(middle) == "groups/delivery-crew";
    assert prefix + "/groups/delivery-crew/" + suffix == prefix + "/" + Join(middle) + "/" + suffix;
    RoutePieces(prefix, middle, suffix);
    assert '/' !in MANAGER_SEGMENT;
    SplitMembership(prefix, MANAGER_SEGMENT);
    SplitMembership(suffix, MANAGER_SEGMENT);
  }

  /** "managers" is a different segment from "manager": a path that differs
      from a manager route only by that plural names no role. */
  lemma PluralSegmentNamesNoRole(prefix: string, suffix: string)
    requires !HasSegment(prefix, MANAGER_SEGMENT) && !HasSegment(suffix, MANAGER_SEGMENT)
    requires !HasSegment(prefix, CREW_SEGMENT) && !HasSegment(suffix, CREW_SEGMENT)
    ensures ExtractRoleName(prefix + "/groups/managers/" + suffix) == None
  {
    var middle := ["groups", "managers"];
    assert Join(middle) == "groups/managers";
    assert prefix + "/groups/managers/" + suffix == prefix + "/" + Join(middle) + "/" + suffix;
    RoutePieces(prefix, middle, suffix);
    assert '/' !in MANAGER_SEGMENT && '/' !in CREW_SEGMENT;
    SplitMembership(prefix, MANAGER_SEGMENT);
    SplitMembership(suffix, MANAGER_SEGMENT);
    SplitMembership(prefix, CREW_SEGMENT);
    SplitMembership(suffix, CREW_SEGMENT);
  }

  // ---------------------------------------------------------------------
  // Permissions
  // ---------------------------------------------------------------------

  /** Group membership: the group named `name` exists and holds `u`. */
  predicate Member(groups: map<string, set<UserId>>, name: string, u: UserId)
  {
    name in groups && u in groups[name]
  }

  /** `request.user.groups.filter(name=name).exists()`; an anonymous user
      belongs to no group. */
  predicate InGroup(groups: map<string, set<UserId>>, actor: Actor, name: string)
  {
    actor.Authenticated? && Member(groups, name, actor.id)
  }

  /** `Manager.has_permission`: only a signed-in member of an existing
      Manager group passes. */
  predicate IsManager(groups: map<string, set<UserId>>, actor: Actor): (b: bool)
    ensures b ==> actor.Authenticated? && MANAGER_GROUP in groups
  {
    InGroup(groups, actor, MANAGER_GROUP)
  }

  /** `request.user.groups.filter(name="Delivery crew").exists()`: only a
      signed-in member of an existing Delivery crew group passes. */
  predicate IsDeliveryCrew(groups: map<string, set<UserId>>, actor: Actor): (b: bool)
    ensures b ==> actor.Authenticated? && CREW_GROUP in groups
  {
    InGroup(groups, actor, CREW_GROUP)
  }

  /** What a refused permission check answers: not authenticated (401) for
      an anonymous request, forbidden (403) otherwise. The 401 assumes that
      the first configured authentication class asks for credentials (token
      or basic authentication do); under session authentication first, the
      framework would answer 403 to an anonymous request as well. */
  function Denial(actor: Actor): (st: Status)
    ensures st == Unauthorized <==> actor.Anonymous?
    ensures st == Forbidden <==> actor.Authenticated?
  {
    if actor.Anonymous? then Unauthorized else Forbidden
  }

  /** `get_permissions` of both menu-item views: `IsAuthenticated` for GET,
      `Manager` for every other HTTP verb. */
  function MenuItemPermits(groups: map<string, set<UserId>>, actor: Actor, verb: string): (allowed: bool)
    ensures allowed <==> actor.Authenticated? && (verb == "GET" || IsManager(groups, actor))
    ensures IsManager(groups, actor) ==> allowed
    ensures verb != "GET" && !IsManager(groups, actor) ==> !allowed
  {
    if verb == "GET" then actor.Authenticated? else IsManager(groups, actor)
  }
}
