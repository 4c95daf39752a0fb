/**
 * The clean-up applied to the classifier's reply before it is parsed:
 * `reply.replace('json', '').replace('```', '')`.
 */
module Markers {

  const JsonTag: string := "json"
  const Fence: string := "```"

  predicate StartsWith(s: string, p: string) {
    |p| <= |s| && s[..|p|] == p
  }

  predicate OccursAt(s: string, p: string, i: int) {
    0 <= i && i + |p| <= |s| && s[i..i + |p|] == p
  }

  predicate Occurs(s: string, p: string) {
    exists i :: 0 <= i <= |s| && OccursAt(s, p, i)
  }

  /**
   * Python's `s.replace(p, '')`: scan left to right and drop every match of `p`,
   * resuming after each match, so matches never overlap.
   */
  function RemoveAll(s: string, p: string): (r: string)
    requires p != []
    ensures |r| <= |s|
    decreases |s|
  {
    if |s| < |p| then s
    else if s[..|p|] == p then RemoveAll(s[|p|..], p)
    else [s[0]] + RemoveAll(s[1..], p)
  }

  function StripMarkers(reply: string): string {
    RemoveAll(RemoveAll(reply, JsonTag), Fence)
  }

  lemma {:induction false} OccursCons(c: char, u: string, p: string)
    requires Occurs([c] + u, p)
    ensures StartsWith([c] + u, p) || Occurs(u, p)
  {
    var s := [c] + u;
    var i :| 0 <= i <= |s| && OccursAt(s, p, i);
    if i > 0 {
      assert s[i..i + |p|] == u[i - 1..i - 1 + |p|];
      assert OccursAt(u, p, i - 1);
    }
  }

  lemma {:induction false} AbsentUnchanged(s: string, p: string)
    requires p != []
    requires !Occurs(s, p)
    ensures RemoveAll(s, p) == s
    decreases |s|
  {
    if |s| >= |p| {
      assert !OccursAt(s, p, 0);
      forall i | OccursAt(s[1..], p, i) ensures OccursAt(s, p, i + 1) {
        assert s[i + 1..i + 1 + |p|] == s[1..][i..i + |p|];
      }
      AbsentUnchanged(s[1..], p);
      assert s == [s[0]] + s[1..];
    }
  }

  lemma {:induction false} PresentShortens(s: string, p: string)
    requires p != []
    requires Occurs(s, p)
    ensures |RemoveAll(s, p)| < |s|
    decreases |s|
  {
    var i :| 0 <= i <= |s| && OccursAt(s, p, i);
    if s[..|p|] != p {
      assert i != 0;
      assert s[1..][i - 1..i - 1 + |p|] == s[i..i + |p|];
      assert OccursAt(s[1..], p, i - 1);
      PresentShortens(s[1..], p);
    }
  }

  /** `replace` leaves a string unchanged exactly when the pattern does not occur in it. */
  lemma {:induction false} RemoveAllUnchangedIff(s: string, p: string)
    requires p != []
    ensures RemoveAll(s, p) == s <==> !Occurs(s, p)
  {
    if Occurs(s, p) {
      PresentShortens(s, p);
    } else {
      AbsentUnchanged(s, p);
    }
  }

  /** A string that does not start with a backtick keeps its first character. */
  lemma {:induction false} FenceRemovalKeepsHead(u: string)
    requires u != [] && u[0] != '`'
    ensures RemoveAll(u, Fence) != [] && RemoveAll(u, Fence)[0] == u[0]
  {
  }

  lemma {:induction false} FenceRemovalKeepsNoPair(t: string)
    requires !StartsWith(t, "``")
    ensures !StartsWith(RemoveAll(t, Fence), "``")
  {
    if |t| >= 3 && t[0] == '`' {
      assert t[1] != '`';
      FenceRemovalKeepsHead(t[1..]);
    } else if |t| >= 3 {
      FenceRemovalKeepsHead(t);
    }
  }

  /** After the second `replace`, no three backticks in a row are left. */
  lemma {:induction false} NoFenceAfterRemoval(s: string)
    ensures !Occurs(RemoveAll(s, Fence), Fence)
    decreases |s|
  {
    var r := RemoveAll(s, Fence);
    if |s| < 3 {
    } else if s[..3] == Fence {
      NoFenceAfterRemoval(s[3..]);
    } else {
      var rest := RemoveAll(s[1..], Fence);
      NoFenceAfterRemoval(s[1..]);
      assert r == [s[0]] + rest;
      if s[0] == '`' {
        assert !StartsWith(s[1..], "``");
        FenceRemovalKeepsNoPair(s[1..]);
      }
      if Occurs(r, Fence) {
        OccursCons(s[0], rest, Fence);
      }
    }
  }

  /**
   * The clean-up never lengthens the reply, leaves a reply with neither marker
   * untouched, shortens any reply containing either marker, and leaves no fence behind.
   */
  lemma {:induction false} StripMarkersProperties(reply: string)
    ensures |StripMarkers(reply)| <= |reply|
    ensures !Occurs(reply, JsonTag) && !Occurs(reply, Fence) ==> StripMarkers(reply) == reply
    ensures Occurs(reply, JsonTag) || Occurs(reply, Fence) ==> |StripMarkers(reply)| < |reply|
    ensures !Occurs(StripMarkers(reply), Fence)
  {
    var untagged := RemoveAll(reply, JsonTag);
    if Occurs(reply, JsonTag) {
      PresentShortens(reply, JsonTag);
    } else {
      AbsentUnchanged(reply, JsonTag);
      if Occurs(reply, Fence) {
        PresentShortens(reply, Fence);
      } else {
        AbsentUnchanged(reply, Fence);
      }
    }
    NoFenceAfterRemoval(untagged);
  }

  /** A leading backtick is kept: `json` cannot start with it. */
  lemma {:induction false} BacktickKept(u: string)
    ensures RemoveAll("`" + u, JsonTag) == "`" + RemoveAll(u, JsonTag)
  {
    var s := "`" + u;
    assert s[0] == '`' && s[1..] == u;
    if |s| >= |JsonTag| {
      assert s[..|JsonTag|] != JsonTag by { assert s[..|JsonTag|][0] == '`'; }
    }
  }

  /** Appending a fence cannot complete a `json` the string does not contain. */
  lemma {:induction false} NoJsonBeforeFence(b: string)
    requires !Occurs(b, JsonTag)
    ensures !Occurs(b + Fence, JsonTag)
  {
    var s := b + Fence;
    forall i | 0 <= i <= |s| ensures !OccursAt(s, JsonTag, i) {
      if i + |JsonTag| <= |b| {
        assert s[i..i + |JsonTag|] == b[i..i + |JsonTag|];
        assert !OccursAt(b, JsonTag, i);
      } else if i + |JsonTag| <= |s| {
        assert s[i..i + |JsonTag|][3] == s[i + 3] == '`';
      }
    }
  }

  /** Removing fences from a fence-free string followed by one fence gives the string back. */
  lemma {:induction false} ClosingFenceRemoved(b: string)
    requires !Occurs(b, Fence)
    ensures RemoveAll(b + Fence, Fence) == b
    decreases |b|
  {
    var s := b + Fence;
    if b == [] {
      assert s == Fence && s[|Fence|..] == [];
    } else if s[..|Fence|] == Fence {
      // The match starts in `b`, so `b` is shorter than a fence and all backticks.
      assert !OccursAt(b, Fence, 0);
      assert |b| < |Fence|;
      assert s[|Fence|..] == b by {
        forall j | 0 <= j < |b| ensures s[|Fence|..][j] == b[j] {
          assert b[j] == s[..|Fence|][j] == '`';
          assert s[|Fence| + j] == Fence[|Fence| + j - |b|];
        }
      }
    } else {
      var tail := b[1..];
      forall i | 0 <= i <= |tail| && OccursAt(tail, Fence, i) ensures false {
        assert b[i + 1..i + 1 + |Fence|] == tail[i..i + |Fence|];
        assert OccursAt(b, Fence, i + 1);
      }
      ClosingFenceRemoved(tail);
      assert s[1..] == tail + Fence;
      assert b == [b[0]] + tail;
    }
  }

  /** Removing `json` from a fenced, tagged body leaves the fences around the body. */
  lemma {:induction false} TagRemoved(b: string)
    requires !Occurs(b, JsonTag)
    ensures RemoveAll(Fence + JsonTag + b + Fence, JsonTag) == Fence + b + Fence
  {
    var t := b + Fence;
    var tagged := JsonTag + t;
    assert Fence + JsonTag + b + Fence == "`" + ("`" + ("`" + tagged));
    assert Fence + b + Fence == "`" + ("`" + ("`" + t));
    assert tagged[..|JsonTag|] == JsonTag && tagged[|JsonTag|..] == t;
    NoJsonBeforeFence(b);
    AbsentUnchanged(t, JsonTag);
    BacktickKept(tagged);
    BacktickKept("`" + tagged);
    BacktickKept("`" + ("`" + tagged));
  }

  /**
   * A reply wrapped in a Markdown code block tagged `json` is cleaned to its body,
   * provided the body itself contains neither marker.
   */
  lemma {:induction false} WrappedReply(b: string)
    requires !Occurs(b, JsonTag) && !Occurs(b, Fence)
    ensures StripMarkers(Fence + JsonTag + b + Fence) == b
  {
    TagRemoved(b);
    var fenced := Fence + (b + Fence);
    assert Fence + b + Fence == fenced;
    assert fenced[..|Fence|] == Fence && fenced[|Fence|..] == b + Fence;
    ClosingFenceRemoved(b);
  }
}
