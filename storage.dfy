/** The browser's two key/value stores, shared by every part of the client: the
    persistent `localStorage` and the per-tab `sessionStorage`. */
module Storage {
  import opened Wrappers
  import opened Numerals

  // localStorage keys of the respondent credential and the current form instance
  const AUTH_TOKEN := "authToken"
  const AUTH_USER := "authUser"
  const AUTH_TIMESTAMP := "authTokenTimestamp"
  const GENERAL_DATA_ID := "generalDataId"
  // localStorage keys of the reports credential
  const REPORT_TOKEN := "reportToken"
  const REPORT_USER := "reportUser"
  const REPORT_TIMESTAMP := "reportTokenTimestamp"
  // sessionStorage keys of recorded answer ids start with this
  const ANSWER_PREFIX := "respuesta_"

  predicate StartsWith(s: string, prefix: string) {
    |prefix| <= |s| && s[..|prefix|] == prefix
  }

  predicate IsAnswerKey(k: string) {
    StartsWith(k, ANSWER_PREFIX)
  }

  /** `getItem(k)` is truthy: the key is stored and its text is not empty. */
  predicate Present(m: map<string, string>, k: string) {
    k in m && m[k] != ""
  }

  /** The sessionStorage key that records the server id of one answer:
      `respuesta_<form instance>_<category>_<question>`. */
  function AnswerKey(generalDataId: string, categoryId: string, questionId: string): (k: string)
    ensures IsAnswerKey(k)
  {
    ANSWER_PREFIX + generalDataId + "_" + categoryId + "_" + questionId
  }

  /** The answer key built from integer identifiers. */
  function AnswerKeyOf(generalDataId: int, categoryId: int, questionId: int): string {
    AnswerKey(IntToString(generalDataId), IntToString(categoryId), IntToString(questionId))
  }

  /** `m` with every answer-id record removed and every other key kept. */
  function WithoutAnswerRecords(m: map<string, string>): (r: map<string, string>)
    ensures forall k :: k in r <==> k in m && !IsAnswerKey(k)
    ensures forall k :: k in r ==> r[k] == m[k]
  {
    map k | k in m && !IsAnswerKey(k) :: m[k]
  }

  /** `m` with the answer-id records among `visited` removed. */
  function WithoutAnswerRecordsIn(m: map<string, string>, visited: set<string>): map<string, string> {
    map k | k in m && !(k in visited && IsAnswerKey(k)) :: m[k]
  }

  class BrowserStorage {
    var local: map<string, string>
    var session: map<string, string>

    constructor (local: map<string, string>, session: map<string, string>)
      ensures this.local == local && this.session == session
    {
      this.local := local;
      this.session := session;
    }

    /** Walks the keys sessionStorage held on entry and removes those that record an
        answer id. */
    method ClearAnswerRecords()
      modifies this`session
      ensures session == WithoutAnswerRecords(old(session))
    {
      var keys := session.Keys;
      ghost var visited: set<string> := {};
      while keys != {}
        invariant keys !! visited && keys + visited == old(session).Keys
        invariant session == WithoutAnswerRecordsIn(old(session), visited)
        decreases keys
      {
        var k :| k in keys;
        if IsAnswerKey(k) {
          session := session - {k};
        }
        keys := keys - {k};
        visited := visited + {k};
      }
      assert visited == old(session).Keys;
    }
  }

  lemma {:induction false} NoSeparatorInIntText(n: int)
    ensures forall i :: 0 <= i < |IntToString(n)| ==> IntToString(n)[i] != '_'
  {
    var u := NatToString(if n < 0 then -n else n);
    assert forall i :: 0 <= i < |u| ==> IsDigit(u[i]);
    if n < 0 {
      assert forall i :: 1 <= i < |IntToString(n)| ==> IntToString(n)[i] == u[i - 1];
    }
  }

  lemma SplitAtSeparator(a: string, b: string, c: string, d: string)
    requires forall i :: 0 <= i < |a| ==> a[i] != '_'
    requires forall i :: 0 <= i < |c| ==> c[i] != '_'
    requires a + "_" + b == c + "_" + d
    ensures a == c && b == d
  {
    var x := a + "_" + b;
    assert x[|a|] == '_';
    assert x[|c|] == '_';
    assert forall i :: 0 <= i < |a| ==> x[i] == a[i];
    assert forall i :: 0 <= i < |c| ==> x[i] == c[i];
    assert IndexOf(x, '_') == |a| && IndexOf(x, '_') == |c|;
    assert a == x[..|a|] && c == x[..|c|];
    assert b == x[|a| + 1..] && d == x[|c| + 1..];
  }

  lemma AnswerKeyTail(g: string, c: string, q: string)
    ensures AnswerKey(g, c, q)[|ANSWER_PREFIX|..] == g + "_" + (c + "_" + q)
  {
  }

  /** Distinct (form instance, category, question) triples get distinct keys, so one
      answer's recorded id is never taken for another's. */
  lemma AnswerKeyInjective(g1: int, c1: int, q1: int, g2: int, c2: int, q2: int)
    requires AnswerKeyOf(g1, c1, q1) == AnswerKeyOf(g2, c2, q2)
    ensures g1 == g2 && c1 == c2 && q1 == q2
  {
    var G1, C1, Q1 := IntToString(g1), IntToString(c1), IntToString(q1);
    var G2, C2, Q2 := IntToString(g2), IntToString(c2), IntToString(q2);
    NoSeparatorInIntText(g1); NoSeparatorInIntText(g2);
    NoSeparatorInIntText(c1); NoSeparatorInIntText(c2);
    AnswerKeyTail(G1, C1, Q1);
    AnswerKeyTail(G2, C2, Q2);
    SplitAtSeparator(G1, C1 + "_" + Q1, G2, C2 + "_" + Q2);
    SplitAtSeparator(C1, Q1, C2, Q2);
    IntToStringInjective(g1, g2);
    IntToStringInjective(c1, c2);
    IntToStringInjective(q1, q2);
  }
}
