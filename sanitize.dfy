/**
 * `sanitize_filename`, identical in both back ends: delete every character
 * of `<>:"/\|?*` from a title, then keep at most its first 200 characters.
 */
module Sanitize {
  import opened Text

  /** The nine characters a file name may not hold: angle brackets, colon, double quote, slashes, bar, question mark, star. */
  const ForbiddenChars: string := "<>:\"/\\|?*"

  const MaxNameLength: nat := 200

  predicate IsForbidden(c: char)
  {
    c in ForbiddenChars
  }

  predicate IsClean(s: string)
  {
    forall i :: 0 <= i < |s| ==> !IsForbidden(s[i])
  }

  /** Every forbidden character deleted, the rest kept in order. */
  function RemoveForbidden(s: string): (r: string)
    ensures |r| <= |s| && IsClean(r)
  {
    if s == [] then []
    else (if IsForbidden(s[0]) then [] else [s[0]]) + RemoveForbidden(s[1..])
  }

  /**
   * The sanitized name: a prefix of the title with the forbidden characters
   * deleted, exactly 200 characters long when more than 200 survive.
   */
  function SanitizeFilename(title: string): (r: string)
    ensures IsClean(r) && |r| <= MaxNameLength
    ensures StartsWith(RemoveForbidden(title), r)
    ensures |RemoveForbidden(title)| > MaxNameLength ==> |r| == MaxNameLength
    ensures |RemoveForbidden(title)| <= MaxNameLength ==> r == RemoveForbidden(title)
  {
    var s := RemoveForbidden(title);
    if |s| > MaxNameLength then s[..MaxNameLength] else s
  }

  /** Deletion works piecewise: nothing is moved across a split point. */
  lemma {:induction false} RemoveForbiddenConcat(a: string, b: string)
    ensures RemoveForbidden(a + b) == RemoveForbidden(a) + RemoveForbidden(b)
  {
    if a == [] {
      assert a + b == b;
    } else {
      assert (a + b)[1..] == a[1..] + b;
      RemoveForbiddenConcat(a[1..], b);
    }
  }

  /** A single character is either deleted or kept as it is: nothing is substituted. */
  lemma RemoveForbiddenChar(c: char)
    ensures RemoveForbidden([c]) == if IsForbidden(c) then [] else [c]
  {
    assert [c][1..] == [];
  }

  /** A text without forbidden characters is left as it is. */
  lemma {:induction false} RemoveForbiddenClean(s: string)
    requires IsClean(s)
    ensures RemoveForbidden(s) == s
  {
    if s != [] {
      RemoveForbiddenClean(s[1..]);
    }
  }

  /** A clean title of at most 200 characters comes back unchanged. */
  lemma SanitizeUnchanged(title: string)
    requires IsClean(title) && |title| <= MaxNameLength
    ensures SanitizeFilename(title) == title
  {
    RemoveForbiddenClean(title);
  }

  /** Sanitizing twice is sanitizing once. */
  lemma SanitizeIdempotent(title: string)
    ensures SanitizeFilename(SanitizeFilename(title)) == SanitizeFilename(title)
  {
    SanitizeUnchanged(SanitizeFilename(title));
  }

  /** The worked example: `My:Video/Title?` becomes `MyVideoTitle`. */
  lemma SanitizeExample(title: string)
    requires title == "My:Video/Title?"
    ensures SanitizeFilename(title) == "MyVideoTitle"
  {
    ExampleClean("My");
    ExampleClean("Video");
    ExampleClean("Title");
    ExampleSplit(title);
    ExampleSteps("Title", "Video", "My");
    ExampleJoin();
  }

  /** The three words of the example are clean. */
  lemma ExampleClean(w: string)
    requires w == "My" || w == "Video" || w == "Title"
    ensures IsClean(w)
  {
  }

  /** The example title is the three words with one forbidden character after each. */
  lemma ExampleSplit(title: string)
    requires title == "My:Video/Title?"
    ensures title == "My" + [':'] + ("Video" + ['/'] + ("Title" + ['?'] + []))
  {
  }

  /** The three words joined. */
  lemma ExampleJoin()
    ensures "My" + ("Video" + "Title") == "MyVideoTitle"
  {
  }

  lemma ExampleSteps(title: string, video: string, my: string)
    requires IsClean(title) && IsClean(video) && IsClean(my)
    ensures RemoveForbidden(my + [':'] + (video + ['/'] + (title + ['?'] + [])))
         == my + (video + title)
  {
    var t1 := title + ['?'] + [];
    var t2 := video + ['/'] + t1;
    DropOne(title, '?', []);
    assert title + [] == title;
    DropOne(video, '/', t1);
    DropOne(my, ':', t2);
  }

  /** Deleting one forbidden character that follows a clean stretch. */
  lemma DropOne(a: string, c: char, b: string)
    requires IsClean(a) && IsForbidden(c)
    ensures RemoveForbidden(a + [c] + b) == a + RemoveForbidden(b)
  {
    RemoveForbiddenConcat(a + [c], b);
    RemoveForbiddenConcat(a, [c]);
    RemoveForbiddenClean(a);
    RemoveForbiddenChar(c);
    calc {
      RemoveForbidden(a + [c] + b);
      RemoveForbidden(a + [c]) + RemoveForbidden(b);
      RemoveForbidden(a) + RemoveForbidden([c]) + RemoveForbidden(b);
      a + [] + RemoveForbidden(b);
    }
    assert a + [] == a;
  }
}
