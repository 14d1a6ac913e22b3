/** What the filters do to whole walks, for a fixed history with fixed pre-flight outcomes. */
module WalkFilters {
  import opened Options
  import opened Channel
  import opened Filters
  import opened ZipWalk

  /** The walk with a matcher. */
  function Walk(f: Matcher, ms: seq<Message>): seq<Ref> {
    Pick(Some((a: Attachment, m: Message) => f.Accepts(a, m)), ms, |ms|)
  }

  /** A walk holds exactly the attachments that its matcher accepts and that answer 200. */
  lemma WalkMembers(f: Matcher, ms: seq<Message>, r: Ref)
    ensures r in Walk(f, ms) <==>
            InHistory(ms, r) && f.Accepts(ms[r.i].attachments[r.k], ms[r.i])
            && ms[r.i].attachments[r.k].reply == Status(200)
  {
    PickIsTheSelection(Some((a: Attachment, m: Message) => f.Accepts(a, m)), ms, |ms|);
    hide Pick, Matcher.Accepts;
  }

  /**
   What a filtered walk holds: the attachments that answer 200, of the author asked for, of
   the media types the guild allows, and of the category asked for.
   */
  lemma WalkMeans(f: Matcher, ms: seq<Message>, r: Ref)
    ensures r in Walk(f, ms) <==>
      InHistory(ms, r)
      && var (a, m) := (ms[r.i].attachments[r.k], ms[r.i]);
         && a.reply == Status(200)
         && (f.fromUser.Some? ==> m.author == f.fromUser.value)
         && (f.allowed.Some? ==> ContentType(a) in f.allowed.value)
         && (f.category == Some("image") ==> StartsWith(ContentType(a), "image/") && ContentType(a) != "image/gif")
         && (f.category == Some("video") ==> StartsWith(ContentType(a), "video/"))
         && (f.category == Some("audio") ==> StartsWith(ContentType(a), "audio/"))
         && (f.category == Some("gif") ==> ContentType(a) == "image/gif")
         && (f.category == Some("other") ==>
               && !StartsWith(ContentType(a), "image/") && !StartsWith(ContentType(a), "video/")
               && !StartsWith(ContentType(a), "audio/"))
  {
    WalkMembers(f, ms, r);
    if InHistory(ms, r) {
      AcceptsMeans(f, ms[r.i].attachments[r.k], ms[r.i]);
    }
    hide Walk, Matcher.Accepts, ContentType, StartsWith;
  }

  ghost predicate Subsequence(xs: seq<Ref>, ys: seq<Ref>)
    decreases |ys|
  {
    || xs == []
    || (ys != [] && xs[0] == ys[0] && Subsequence(xs[1..], ys[1..]))
    || (ys != [] && Subsequence(xs, ys[1..]))
  }

  lemma {:induction false} IncreasingSubsequence(xs: seq<Ref>, ys: seq<Ref>)
    requires Increasing(xs) && Increasing(ys) && forall r | r in xs :: r in ys
    ensures Subsequence(xs, ys)
    decreases |ys|
  {
    if xs != [] {
      assert xs[0] in ys;
      if xs[0] == ys[0] {
        forall r | r in xs[1..] ensures r in ys[1..] {
          InTail(xs, r);
          InTail(ys, r);
        }
        IncreasingSubsequence(xs[1..], ys[1..]);
      } else {
        FirstIsLeast(ys, xs[0]);
        forall r | r in xs ensures r in ys[1..] {
          FirstIsLeast(xs, r);
          InTail(ys, r);
        }
        IncreasingSubsequence(xs, ys[1..]);
      }
    }
  }

  /** A filtered walk is the policy-only walk with some members left out, in the same order. */
  lemma FilteredWalkIsSubsequence(f: Matcher, ms: seq<Message>)
    ensures Subsequence(Walk(f, ms), Walk(Matcher(None, None, f.allowed), ms))
  {
    var policy := Matcher(None, None, f.allowed);
    forall r | r in Walk(f, ms) ensures r in Walk(policy, ms) {
      WalkMembers(f, ms, r);
      WalkMembers(policy, ms, r);
      FiltersOnlyNarrow(f, ms[r.i].attachments[r.k], ms[r.i]);
      hide Walk, Matcher.Accepts;
    }
    PickIsTheSelection(Some((a: Attachment, m: Message) => f.Accepts(a, m)), ms, |ms|);
    PickIsTheSelection(Some((a: Attachment, m: Message) => policy.Accepts(a, m)), ms, |ms|);
    hide Pick;
    IncreasingSubsequence(Walk(f, ms), Walk(policy, ms));
  }

  function Only(c: Category, f: Matcher): Matcher {
    f.(category := Some(CategoryName(c)))
  }

  /** Each member of the uncategorised walk is in exactly one of the five categorised walks. */
  lemma InOneCategory(f: Matcher, ms: seq<Message>, r: Ref)
    ensures r in Walk(f.(category := None), ms) <==> exists c :: r in Walk(Only(c, f), ms)
    ensures forall c, d | r in Walk(Only(c, f), ms) && r in Walk(Only(d, f), ms) :: c == d
  {
    WalkMembers(f.(category := None), ms, r);
    forall c ensures r in Walk(Only(c, f), ms) <==>
        InHistory(ms, r) && Only(c, f).Accepts(ms[r.i].attachments[r.k], ms[r.i])
        && ms[r.i].attachments[r.k].reply == Status(200)
    {
      WalkMembers(Only(c, f), ms, r);
    }
    if InHistory(ms, r) {
      var a, m := ms[r.i].attachments[r.k], ms[r.i];
      OneCategoryAccepts(f.fromUser, f.allowed, a, m);
      hide Walk, Matcher.Accepts, CategoryName;
      assert f.(category := None) == Matcher(None, f.fromUser, f.allowed);
      if f.(category := None).Accepts(a, m) {
        var c :| Matcher(Some(CategoryName(c)), f.fromUser, f.allowed).Accepts(a, m);
        assert Only(c, f).Accepts(a, m);
      }
    }
  }

  lemma {:induction false} IncreasingCount(xs: seq<Ref>, r: Ref)
    requires Increasing(xs)
    ensures multiset(xs)[r] == if r in xs then 1 else 0
    decreases |xs|
  {
    if xs != [] {
      IncreasingCount(xs[1..], r);
      InTail(xs, r);
      assert xs == [xs[0]] + xs[1..];
    }
  }

  lemma WalkCount(f: Matcher, ms: seq<Message>, r: Ref)
    ensures multiset(Walk(f, ms))[r] == if r in Walk(f, ms) then 1 else 0
  {
    PickIsTheSelection(Some((a: Attachment, m: Message) => f.Accepts(a, m)), ms, |ms|);
    hide Pick;
    IncreasingCount(Walk(f, ms), r);
  }

  /** The five single-category walks make up the uncategorised walk, nothing missing and nothing twice. */
  lemma CategoriesPartitionTheWalk(f: Matcher, ms: seq<Message>)
    ensures multiset(Walk(f.(category := None), ms))
         == multiset(Walk(Only(Image, f), ms)) + multiset(Walk(Only(Video, f), ms))
            + multiset(Walk(Only(Audio, f), ms)) + multiset(Walk(Only(Gif, f), ms))
            + multiset(Walk(Only(Other, f), ms))
  {
    var all := multiset(Walk(Only(Image, f), ms)) + multiset(Walk(Only(Video, f), ms))
               + multiset(Walk(Only(Audio, f), ms)) + multiset(Walk(Only(Gif, f), ms))
               + multiset(Walk(Only(Other, f), ms));
    forall r ensures multiset(Walk(f.(category := None), ms))[r] == all[r] {
      WalkCount(f.(category := None), ms, r);
      WalkCount(Only(Image, f), ms, r);
      WalkCount(Only(Video, f), ms, r);
      WalkCount(Only(Audio, f), ms, r);
      WalkCount(Only(Gif, f), ms, r);
      WalkCount(Only(Other, f), ms, r);
      InOneCategory(f, ms, r);
      hide Walk, Only;
    }
    hide Walk, Only;
    assert multiset(Walk(f.(category := None), ms)) == all;
  }
}
