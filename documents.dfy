/** Remote documents and the tag-match count of `fetchReadwiseData`. */
module Documents {

  /** Tag metadata is passed through and never interpreted. */
  datatype TagMeta = TagMeta(name: string)

  /** A document of the reading service; only its tag map is looked at.
      Tag keys are case-sensitive as the service stores them. */
  datatype Document = Document(tags: map<string, TagMeta>)

  /** ASCII lower-casing of one character (stand-in for the locale-aware one). */
  function LowerChar(c: char): (r: char)
    ensures 'A' <= c <= 'Z' ==> r as int == c as int + 32
    ensures !('A' <= c <= 'Z') ==> r == c
    ensures !('A' <= r <= 'Z')
  {
    if 'A' <= c <= 'Z' then (c as int + 32) as char else c
  }

  /** ASCII lower-casing of a string, character by character. */
  function Lower(s: string): (r: string)
    ensures |r| == |s|
    ensures forall i :: 0 <= i < |s| ==> r[i] == LowerChar(s[i])
  {
    if s == [] then [] else [LowerChar(s[0])] + Lower(s[1..])
  }

  /** Lower-casing twice is lower-casing once. */
  lemma LowerIdempotent(s: string)
    ensures Lower(Lower(s)) == Lower(s)
  {
  }

  /** Does the document carry `key` among its tag keys (compared as stored)? */
  predicate Tagged(d: Document, key: string) {
    key in d.tags
  }

  /** The documents tagged with `key`, in their original order. */
  function Filter(docs: seq<Document>, key: string): (r: seq<Document>)
    ensures |r| <= |docs|
    ensures forall i :: 0 <= i < |r| ==> Tagged(r[i], key)
  {
    if docs == [] then []
    else
      var front := docs[..|docs| - 1];
      var last := docs[|docs| - 1];
      assert docs == front + [last];
      Filter(front, key) + (if Tagged(last, key) then [last] else [])
  }

  /** A document is kept exactly when it is among the input and tagged. */
  lemma {:induction false} FilterMembership(docs: seq<Document>, key: string, d: Document)
    ensures d in Filter(docs, key) <==> d in docs && Tagged(d, key)
  {
    if docs != [] {
      var n := |docs| - 1;
      FilterMembership(docs[..n], key, d);
      assert docs == docs[..n] + [docs[n]];
    }
  }

  /** The documents that count as read for the configured tag: only the
      configured tag is lower-cased, the stored keys are not. */
  function ReadDocuments(docs: seq<Document>, tag: string): (r: seq<Document>)
    ensures |r| <= |docs|
    ensures forall i :: 0 <= i < |r| ==> Lower(tag) in r[i].tags
  {
    Filter(docs, Lower(tag))
  }

  /** The number of read documents. */
  function ReadCount(docs: seq<Document>, tag: string): (n: nat)
    ensures n <= |docs|
  {
    |ReadDocuments(docs, tag)|
  }

  /** Positions of the documents tagged with `key`: an independent
      description of what the filter keeps. */
  ghost function MatchingPositions(docs: seq<Document>, key: string): set<nat> {
    set i: nat | i < |docs| && Tagged(docs[i], key)
  }

  /** The filter keeps exactly one document per matching position. */
  lemma {:induction false} FilterCountsPositions(docs: seq<Document>, key: string)
    ensures |Filter(docs, key)| == |MatchingPositions(docs, key)|
  {
    if docs != [] {
      var n := |docs| - 1;
      var front := docs[..n];
      FilterCountsPositions(front, key);
      var before := MatchingPositions(front, key);
      var now := MatchingPositions(docs, key);
      assert Filter(docs, key) == Filter(front, key) + (if Tagged(docs[n], key) then [docs[n]] else []);
      assert forall i: nat | i < n :: docs[i] == front[i];
      if Tagged(docs[n], key) {
        assert now == before + {n};
        assert n !in before;
      } else {
        assert now == before;
      }
    }
  }

  /** Filtering a concatenation filters each part. */
  lemma {:induction false} FilterAppend(a: seq<Document>, b: seq<Document>, key: string)
    ensures Filter(a + b, key) == Filter(a, key) + Filter(b, key)
  {
    if b == [] {
      assert a + b == a;
    } else {
      var n := |b| - 1;
      var ab := a + b;
      FilterAppend(a, b[..n], key);
      assert ab[..|ab| - 1] == a + b[..n];
      assert ab[|ab| - 1] == b[n];
      var tail := if Tagged(b[n], key) then [b[n]] else [];
      assert Filter(ab, key) == Filter(a + b[..n], key) + tail;
      assert Filter(b, key) == Filter(b[..n], key) + tail;
    }
  }

  /** The read count of a concatenation is the sum of the parts' counts. */
  lemma ReadCountAppend(a: seq<Document>, b: seq<Document>, tag: string)
    ensures ReadCount(a + b, tag) == ReadCount(a, tag) + ReadCount(b, tag)
  {
    FilterAppend(a, b, Lower(tag));
  }

  /** The read count is the number of positions holding a document tagged
      with the lower-cased tag, and never more than the number of documents. */
  lemma ReadCountMeaning(docs: seq<Document>, tag: string)
    ensures ReadCount(docs, tag) == |MatchingPositions(docs, Lower(tag))|
    ensures ReadCount(docs, tag) <= |docs|
  {
    FilterCountsPositions(docs, Lower(tag));
  }

  /** The configured tag may be given in any ASCII case: `tag` and its
      lower-cased form count the same documents. */
  lemma ReadCountCaseInsensitive(docs: seq<Document>, tag: string)
    ensures ReadCount(docs, tag) == ReadCount(docs, Lower(tag))
  {
    LowerIdempotent(tag);
  }

  /** The default tag and its lower-case spelling give the same count. */
  lemma DefaultTagSpellings(docs: seq<Document>)
    ensures ReadCount(docs, "2024_READ") == ReadCount(docs, "2024_read")
  {
  }

  /** Stored keys are not lower-cased: a document whose only key is the
      upper-case spelling of the default tag does not count. */
  lemma StoredKeysKeepTheirCase()
    ensures ReadCount([Document(map["2024_READ" := TagMeta("2024_READ")])], "2024_READ") == 0
  {
  }
}
