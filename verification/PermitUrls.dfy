/**
 * PermitUrlMatcher: a request is let through without authentication when some configured
 * entry "METHOD:pattern" names its method, ignoring case, and its path pattern matches
 * the request URI. The path-pattern matcher (AntPathMatcher) is a parameter.
 */
module PermitUrls {
  import opened ErrorCodes

  /** A permit entry cut at its first ':' (String.split(":", 2)): the two parts, or None when the split gives one part. */
  function SplitAtFirstColon(entry: string): (r: Option<(string, string)>)
    ensures r.None? <==> ':' !in entry
    ensures r.Some? ==> ':' !in r.value.0 && entry == r.value.0 + ":" + r.value.1
  {
    if entry == [] then None
    else if entry[0] == ':' then Some(([], entry[1..]))
    else
      match SplitAtFirstColon(entry[1..])
      case None => None
      case Some(parts) => Some(([entry[0]] + parts.0, parts.1))
  }

  /** The cut falls at the first ':', so everything after it, further colons included, is the pattern. */
  lemma {:induction false} SplitAtFirstColonOf(permitMethod: string, pattern: string)
    requires ':' !in permitMethod
    ensures SplitAtFirstColon(permitMethod + ":" + pattern) == Some((permitMethod, pattern))
  {
    var entry := permitMethod + ":" + pattern;
    if permitMethod == [] {
      assert entry[0] == ':' && entry[1..] == pattern;
    } else {
      SplitAtFirstColonOf(permitMethod[1..], pattern);
      assert entry[0] == permitMethod[0] && entry[1..] == permitMethod[1..] + ":" + pattern;
      assert [permitMethod[0]] + permitMethod[1..] == permitMethod;
    }
  }

  /** Upper-casing of the ASCII letters. */
  function ToUpper(c: char): char
  {
    if 'a' <= c <= 'z' then (c as int - 32) as char else c
  }

  /** Lower-casing of the ASCII letters. */
  function ToLower(c: char): char
  {
    if 'A' <= c <= 'Z' then (c as int + 32) as char else c
  }

  /** String.equalsIgnoreCase: same length, and position by position the characters agree as they are, upper-cased, or lower-cased after that. */
  predicate EqualsIgnoreCase(a: string, b: string)
  {
    |a| == |b| &&
    forall i :: 0 <= i < |a| ==>
      a[i] == b[i] || ToUpper(a[i]) == ToUpper(b[i]) || ToLower(ToUpper(a[i])) == ToLower(ToUpper(b[i]))
  }

  /** A string upper-cased letter by letter. */
  function Upper(s: string): (r: string)
    ensures |r| == |s|
  {
    if s == [] then [] else [ToUpper(s[0])] + Upper(s[1..])
  }

  lemma {:induction false} UpperAt(s: string)
    ensures forall i :: 0 <= i < |s| ==> Upper(s)[i] == ToUpper(s[i])
  {
    if s != [] {
      UpperAt(s[1..]);
    }
  }

  /** Two methods are equal ignoring case exactly when their upper-cased forms are equal. */
  lemma EqualsIgnoreCaseIffUpper(a: string, b: string)
    ensures EqualsIgnoreCase(a, b) <==> Upper(a) == Upper(b)
  {
    UpperAt(a);
    UpperAt(b);
    if Upper(a) == Upper(b) {
      forall i | 0 <= i < |a|
        ensures ToUpper(a[i]) == ToUpper(b[i])
      {
        assert Upper(a)[i] == Upper(b)[i];
      }
    }
    if EqualsIgnoreCase(a, b) {
      forall i | 0 <= i < |a|
        ensures Upper(a)[i] == Upper(b)[i]
      {
        assert ToUpper(ToLower(ToUpper(a[i]))) == ToUpper(a[i]);
        assert ToUpper(ToLower(ToUpper(b[i]))) == ToUpper(b[i]);
      }
    }
  }

  /** One permit entry against the request's method and URI. */
  predicate EntryMatches(entry: string, requestMethod: string, uri: string, antMatch: (string, string) -> bool)
  {
    match SplitAtFirstColon(entry)
    case None => false
    case Some(parts) => EqualsIgnoreCase(parts.0, requestMethod) && antMatch(parts.1, uri)
  }

  /** An entry without ':' never matches. */
  lemma NoColonNeverMatches(entry: string, requestMethod: string, uri: string, antMatch: (string, string) -> bool)
    requires ':' !in entry
    ensures !EntryMatches(entry, requestMethod, uri, antMatch)
  {
  }

  /** An entry "M:P" matches exactly when M names the method ignoring case and P, colons and all, matches the URI. */
  lemma EntryMatchesOf(permitMethod: string, pattern: string, requestMethod: string, uri: string, antMatch: (string, string) -> bool)
    requires ':' !in permitMethod
    ensures EntryMatches(permitMethod + ":" + pattern, requestMethod, uri, antMatch)
      <==> Upper(permitMethod) == Upper(requestMethod) && antMatch(pattern, uri)
  {
    SplitAtFirstColonOf(permitMethod, pattern);
    EqualsIgnoreCaseIffUpper(permitMethod, requestMethod);
  }

  /** matches: some configured entry matches the request. */
  predicate Matches(permitUrls: seq<string>, requestMethod: string, uri: string, antMatch: (string, string) -> bool)
  {
    permitUrls != [] &&
    (EntryMatches(permitUrls[0], requestMethod, uri, antMatch) || Matches(permitUrls[1..], requestMethod, uri, antMatch))
  }

  /** The position of the first matching entry, or |permitUrls| when none matches. */
  function FirstMatch(permitUrls: seq<string>, requestMethod: string, uri: string, antMatch: (string, string) -> bool): (k: nat)
    ensures k <= |permitUrls|
  {
    if permitUrls == [] then 0
    else if EntryMatches(permitUrls[0], requestMethod, uri, antMatch) then 0
    else 1 + FirstMatch(permitUrls[1..], requestMethod, uri, antMatch)
  }

  /** The list matches exactly when some entry does: the first matching entry is the witness, and any matching entry suffices. */
  lemma {:induction false} MatchesIffSomeEntry(permitUrls: seq<string>, requestMethod: string, uri: string, antMatch: (string, string) -> bool)
    ensures Matches(permitUrls, requestMethod, uri, antMatch) <==> FirstMatch(permitUrls, requestMethod, uri, antMatch) < |permitUrls|
    ensures FirstMatch(permitUrls, requestMethod, uri, antMatch) < |permitUrls| ==>
      EntryMatches(permitUrls[FirstMatch(permitUrls, requestMethod, uri, antMatch)], requestMethod, uri, antMatch)
    ensures forall i :: 0 <= i < |permitUrls| && EntryMatches(permitUrls[i], requestMethod, uri, antMatch) ==>
      Matches(permitUrls, requestMethod, uri, antMatch)
  {
    if permitUrls != [] {
      MatchesIffSomeEntry(permitUrls[1..], requestMethod, uri, antMatch);
      forall i | 0 <= i < |permitUrls| && EntryMatches(permitUrls[i], requestMethod, uri, antMatch)
        ensures Matches(permitUrls, requestMethod, uri, antMatch)
      {
        if i > 0 {
          assert permitUrls[1..][i - 1] == permitUrls[i];
        }
      }
    }
  }

  /** An empty permit list lets nothing through. */
  lemma EmptyMatchesNothing(requestMethod: string, uri: string, antMatch: (string, string) -> bool)
    ensures !Matches([], requestMethod, uri, antMatch)
  {
  }
}
