/**
 * File-name sanitisation (`GetImageFileName`): the image description with
 * non-ASCII characters and the platform's invalid file-name characters
 * removed, cut to 230 characters. The platform's list of invalid characters
 * (`Path.GetInvalidFileNameChars()`) is a parameter.
 */
module FileNames {
  import opened Sequences

  const MaxFileNameLength := 230

  predicate IsAscii(c: char)
  {
    c <= '\U{007F}'
  }

  /** `Regex.Replace(s, "[^\u0000-\u007F]", "")`: drops every non-ASCII character. */
  function AsciiOnly(s: string): (r: string)
    ensures forall i :: 0 <= i < |r| ==> IsAscii(r[i])
    ensures IsSubsequence(r, s)
  {
    if s == [] then []
    else if IsAscii(s[0]) then [s[0]] + AsciiOnly(s[1..])
    else AsciiOnly(s[1..])
  }

  /** `s.Replace(c.ToString(), "")`: drops every occurrence of `c`. */
  function Without(s: string, c: char): (r: string)
    ensures c !in r
    ensures IsSubsequence(r, s)
  {
    if s == [] then []
    else if s[0] == c then Without(s[1..], c)
    else [s[0]] + Without(s[1..], c)
  }

  /** The `foreach` over the invalid characters, removing one character at a time in list order. */
  function StripChars(s: string, invalid: seq<char>): (r: string)
    ensures forall i :: 0 <= i < |r| ==> r[i] !in invalid
    ensures IsSubsequence(r, s)
    decreases |invalid|
  {
    if invalid == [] then
      PrefixIsSubsequence(s, s);
      s
    else
      var c := invalid[0];
      var r := StripChars(Without(s, c), invalid[1..]);
      SubsequenceTransitive(r, Without(s, c), s);
      SubsequenceElements(r, Without(s, c));
      assert forall x :: x in invalid ==> x == c || x in invalid[1..];
      r
  }

  /** Reference definition: a single pass that keeps exactly the characters not listed in `invalid`. */
  function KeepValid(s: string, invalid: seq<char>): string
  {
    if s == [] then []
    else if s[0] in invalid then KeepValid(s[1..], invalid)
    else [s[0]] + KeepValid(s[1..], invalid)
  }

  /** `Substring(0, 230)` when the name is longer than 230 characters. */
  function Truncate(s: string): (r: string)
    ensures r <= s && |r| <= MaxFileNameLength
    ensures |r| == if |s| > MaxFileNameLength then MaxFileNameLength else |s|
  {
    if |s| > MaxFileNameLength then s[..MaxFileNameLength] else s
  }

  /**
   * The file name `DownloadImage` gives an image (before the directory and
   * the extension): only ASCII characters, none of the invalid ones, at most
   * 230 of them, all taken in order from the description. The source's
   * `imageURL` parameter is unused and is not part of this signature.
   */
  function ImageFileName(description: string, invalid: seq<char>): (r: string)
    ensures forall i :: 0 <= i < |r| ==> IsAscii(r[i]) && r[i] !in invalid
    ensures |r| <= MaxFileNameLength
    ensures IsSubsequence(r, description)
  {
    var a := AsciiOnly(description);
    var s := StripChars(a, invalid);
    var r := Truncate(s);
    PrefixIsSubsequence(r, s);
    SubsequenceTransitive(r, s, a);
    SubsequenceTransitive(r, a, description);
    SubsequenceElements(r, a);
    assert forall i :: 0 <= i < |r| ==> r[i] in a;
    r
  }

  lemma {:induction false} KeepValidWithout(s: string, c: char, invalid: seq<char>)
    ensures KeepValid(Without(s, c), invalid) == KeepValid(s, [c] + invalid)
  {
    if s != [] {
      KeepValidWithout(s[1..], c, invalid);
    }
  }

  /** Removing the invalid characters one by one is the same as filtering them out in one pass. */
  lemma {:induction false} StripCharsIsKeepValid(s: string, invalid: seq<char>)
    ensures StripChars(s, invalid) == KeepValid(s, invalid)
    decreases |invalid|
  {
    if invalid == [] {
      KeepValidNone(s);
    } else {
      StripCharsIsKeepValid(Without(s, invalid[0]), invalid[1..]);
      KeepValidWithout(s, invalid[0], invalid[1..]);
      assert [invalid[0]] + invalid[1..] == invalid;
    }
  }

  lemma {:induction false} KeepValidNone(s: string)
    ensures KeepValid(s, []) == s
  {
    if s != [] {
      KeepValidNone(s[1..]);
    }
  }

  lemma {:induction false} AsciiOnlyKeepsAscii(s: string)
    requires forall i :: 0 <= i < |s| ==> IsAscii(s[i])
    ensures AsciiOnly(s) == s
  {
    if s != [] {
      AsciiOnlyKeepsAscii(s[1..]);
    }
  }

  lemma {:induction false} WithoutAbsent(s: string, c: char)
    requires c !in s
    ensures Without(s, c) == s
  {
    if s != [] {
      WithoutAbsent(s[1..], c);
    }
  }

  lemma {:induction false} StripCharsKeepsValid(s: string, invalid: seq<char>)
    requires forall i :: 0 <= i < |s| ==> s[i] !in invalid
    ensures StripChars(s, invalid) == s
    decreases |invalid|
  {
    if invalid != [] {
      WithoutAbsent(s, invalid[0]);
      StripCharsKeepsValid(s, invalid[1..]);
    }
  }

  /** Sanitising a sanitised name changes nothing. */
  lemma ImageFileNameIdempotent(description: string, invalid: seq<char>)
    ensures ImageFileName(ImageFileName(description, invalid), invalid) == ImageFileName(description, invalid)
  {
    var r := ImageFileName(description, invalid);
    AsciiOnlyKeepsAscii(r);
    StripCharsKeepsValid(r, invalid);
  }

  /** Dropping non-ASCII characters works character by character: a concatenation is handled piecewise. */
  lemma {:induction false} AsciiOnlyAppend(s: string, t: string)
    ensures AsciiOnly(s + t) == AsciiOnly(s) + AsciiOnly(t)
  {
    if s != [] {
      assert (s + t)[0] == s[0] && (s + t)[1..] == s[1..] + t;
      AsciiOnlyAppend(s[1..], t);
      if IsAscii(s[0]) {
        assert AsciiOnly(s + t) == [s[0]] + (AsciiOnly(s[1..]) + AsciiOnly(t));
      } else {
        assert AsciiOnly(s + t) == AsciiOnly(s[1..]) + AsciiOnly(t);
      }
    } else {
      assert s + t == t;
    }
  }

  /** A single character is kept exactly when it is ASCII. */
  lemma AsciiOnlyChar(c: char)
    ensures AsciiOnly([c]) == if IsAscii(c) then [c] else []
  {
    assert [c][1..] == [];
  }

  /** Reference definition: the characters of `s` that are ASCII and not invalid, in order, in one pass. */
  function Sanitized(s: string, invalid: seq<char>): string
  {
    if s == [] then []
    else if IsAscii(s[0]) && s[0] !in invalid then [s[0]] + Sanitized(s[1..], invalid)
    else Sanitized(s[1..], invalid)
  }

  lemma {:induction false} KeepValidOfAsciiOnly(s: string, invalid: seq<char>)
    ensures KeepValid(AsciiOnly(s), invalid) == Sanitized(s, invalid)
  {
    if s != [] {
      KeepValidOfAsciiOnly(s[1..], invalid);
      if IsAscii(s[0]) {
        assert ([s[0]] + AsciiOnly(s[1..]))[1..] == AsciiOnly(s[1..]);
      }
    }
  }

  /**
   * The file name is the first 230 characters of the description's
   * characters that are ASCII and not invalid: every such character is kept,
   * in order, up to the length limit.
   */
  lemma ImageFileNameIsSanitizedPrefix(description: string, invalid: seq<char>)
    ensures ImageFileName(description, invalid) == Truncate(Sanitized(description, invalid))
  {
    StripCharsIsKeepValid(AsciiOnly(description), invalid);
    KeepValidOfAsciiOnly(description, invalid);
  }

  /** A description already ASCII, free of invalid characters and at most 230 long is its own file name. */
  lemma ImageFileNameOfValid(description: string, invalid: seq<char>)
    requires forall i :: 0 <= i < |description| ==> IsAscii(description[i]) && description[i] !in invalid
    requires |description| <= MaxFileNameLength
    ensures ImageFileName(description, invalid) == description
  {
    AsciiOnlyKeepsAscii(description);
    StripCharsKeepsValid(description, invalid);
  }

  /** The sanitised characters of a concatenation are those of each part, in order. */
  lemma {:induction false} SanitizedAppend(s: string, t: string, invalid: seq<char>)
    ensures Sanitized(s + t, invalid) == Sanitized(s, invalid) + Sanitized(t, invalid)
  {
    if s != [] {
      assert (s + t)[0] == s[0] && (s + t)[1..] == s[1..] + t;
      SanitizedAppend(s[1..], t, invalid);
      if IsAscii(s[0]) && s[0] !in invalid {
        assert Sanitized(s + t, invalid) == [s[0]] + (Sanitized(s[1..], invalid) + Sanitized(t, invalid));
      } else {
        assert Sanitized(s + t, invalid) == Sanitized(s[1..], invalid) + Sanitized(t, invalid);
      }
    } else {
      assert s + t == t;
    }
  }
}
