/**
 * The reply cleanup of `get_tests_from_deepseek`: the chat call itself is an
 * abstract outcome, and the regular expression
 *   ```(?:[a-zA-Z0-9_]+)?\n(.*?)\n```     (with DOTALL)
 * is an explicit matcher: the least start position at which an opening fence
 * is followed by a closing one, then the least end of the body.
 */
module LlmService {
  import opened Wrappers
  import opened PyStr

  /**
   * What the chat call produced: it raised (transport failure, a malformed
   * response, a non-text content), or it returned a response whose
   * `message.content` is present or missing (a missing field reads as "").
   */
  datatype ChatResult = ChatFailed | ChatReply(content: Option<string>)

  /** `[a-zA-Z0-9_]` */
  predicate IsTagChar(c: char) {
    ('a' <= c <= 'z') || ('A' <= c <= 'Z') || ('0' <= c <= '9') || c == '_'
  }

  /** The end of the maximal run of tag characters starting at `i`. */
  function TagEnd(s: string, i: nat): (j: nat)
    requires i <= |s|
    ensures i <= j <= |s|
    ensures forall k :: i <= k < j ==> IsTagChar(s[k])
    ensures j == |s| || !IsTagChar(s[j])
    decreases |s| - i
  {
    if i == |s| || !IsTagChar(s[i]) then i else TagEnd(s, i + 1)
  }

  /** Three backticks start at `k`. */
  predicate Backticks(s: string, k: nat) {
    k + 3 <= |s| && s[k] == '`' && s[k + 1] == '`' && s[k + 2] == '`'
  }

  /**
   * An opening fence at `k`: three backticks, a (possibly empty) tag and a
   * newline. The optional group can only succeed with the maximal tag run,
   * since a shorter run is followed by a tag character, not a newline.
   */
  predicate OpensAt(s: string, k: nat) {
    Backticks(s, k) && TagEnd(s, k + 3) < |s| && s[TagEnd(s, k + 3)] == '\n'
  }

  /** Where the captured body of an opening fence at `k` begins. */
  function BodyStart(s: string, k: nat): nat
    requires OpensAt(s, k)
  {
    TagEnd(s, k + 3) + 1
  }

  /** A closing fence, newline and three backticks, starts at `e`. */
  predicate ClosesAt(s: string, e: nat) {
    e + 4 <= |s| && s[e] == '\n' && Backticks(s, e + 1)
  }

  /** The pattern matches starting at `k` with the body ending at `e`. */
  predicate IsMatch(s: string, k: nat, e: nat) {
    OpensAt(s, k) && BodyStart(s, k) <= e && ClosesAt(s, e)
  }

  /** The lazy body: the first closing fence at or after `b`. */
  function FindClose(s: string, b: nat): (r: Option<nat>)
    requires b <= |s|
    ensures r.Some? ==> b <= r.value && ClosesAt(s, r.value)
    ensures forall e :: b <= e && (r.None? || e < r.value) ==> !ClosesAt(s, e)
    decreases |s| - b
  {
    if b + 4 > |s| then None
    else if ClosesAt(s, b) then Some(b)
    else FindClose(s, b + 1)
  }

  /** A match: the start of its opening fence and the end of its body. */
  datatype Span = Span(start: nat, end: nat)

  /** `re.search` from position `k`: the leftmost start that matches, with its shortest body. */
  function FirstMatch(s: string, k: nat): (r: Option<Span>)
    requires k <= |s|
    ensures r.Some? ==>
              && k <= r.value.start
              && IsMatch(s, r.value.start, r.value.end)
              && forall e :: BodyStart(s, r.value.start) <= e < r.value.end ==> !ClosesAt(s, e)
    ensures forall k', e :: k <= k' && (r.None? || k' < r.value.start) ==> !IsMatch(s, k', e)
    decreases |s| - k
  {
    if k == |s| then None
    else if OpensAt(s, k) then
      match FindClose(s, BodyStart(s, k))
      case Some(e) => Some(Span(k, e))
      case None => FirstMatch(s, k + 1)
    else FirstMatch(s, k + 1)
  }

  /** `group(1)` of the search over the whole reply, or None when nothing matches. */
  function FencedBody(s: string): (r: Option<string>)
    ensures r.Some? <==> exists k, e :: IsMatch(s, k, e)
  {
    match FirstMatch(s, 0)
    case Some(m) => Some(s[BodyStart(s, m.start)..m.end])
    case None => None
  }

  /**
   * The cleanup after the chat call: None for a failed call or a blank reply;
   * otherwise the stripped body of the first fenced block, or the stripped
   * reply when it has none.
   */
  function CleanReply(reply: ChatResult): (r: Option<string>)
    ensures r.None? <==> reply.ChatFailed? || IsBlank(reply.content.GetOr(""))
    ensures r.Some? ==> r.value == [] || (!IsSpace(r.value[0]) && !IsSpace(r.value[|r.value| - 1]))
  {
    match reply
    case ChatFailed => None
    case ChatReply(content) =>
      var raw := content.GetOr("");
      if Strip(raw) == "" then None
      else Some(Strip(FencedBody(raw).GetOr(raw)))
  }

  /**
   * The block the search picks: a match at `k` with no match starting earlier,
   * whose body ends at the first closing fence.
   */
  lemma FirstBlockChosen(s: string, k: nat, e: nat)
    requires IsMatch(s, k, e)
    requires forall k': nat, e': nat :: k' < k ==> !IsMatch(s, k', e')
    requires forall e' :: BodyStart(s, k) <= e' < e ==> !ClosesAt(s, e')
    ensures FencedBody(s) == Some(s[BodyStart(s, k)..e])
  {
    var r := FirstMatch(s, 0);
    assert r.Some?;
    assert r.value.start == k;
  }

  /** The run of tag characters from `i` ends at `j`. */
  lemma TagEndAt(s: string, i: nat, j: nat)
    requires i <= j <= |s|
    requires forall k :: i <= k < j ==> IsTagChar(s[k])
    requires j == |s| || !IsTagChar(s[j])
    ensures TagEnd(s, i) == j
  {
  }

  /** A reply with a fenced block yields that block's body, stripped. */
  lemma FencedReplyYieldsStrippedBody(raw: string, k: nat, e: nat)
    requires IsMatch(raw, k, e)
    requires forall k': nat, e': nat :: k' < k ==> !IsMatch(raw, k', e')
    requires forall e' :: BodyStart(raw, k) <= e' < e ==> !ClosesAt(raw, e')
    ensures CleanReply(ChatReply(Some(raw))) == Some(Strip(raw[BodyStart(raw, k)..e]))
  {
    FirstBlockChosen(raw, k, e);
    assert !IsBlank(raw) by {
      assert !IsSpace(raw[k]);
    }
  }

  /** A reply without any fenced block yields the whole reply stripped, which is not empty. */
  lemma UnfencedReplyYieldsStrippedReply(raw: string)
    requires !IsBlank(raw)
    requires forall k, e :: !IsMatch(raw, k, e)
    ensures CleanReply(ChatReply(Some(raw))) == Some(Strip(raw)) && Strip(raw) != ""
  {
  }

  /** A first block whose body is whitespace only gives the empty script, not None. */
  lemma BlankBodyYieldsEmptyScript(raw: string, k: nat, e: nat)
    requires IsMatch(raw, k, e)
    requires forall k': nat, e': nat :: k' < k ==> !IsMatch(raw, k', e')
    requires forall e' :: BodyStart(raw, k) <= e' < e ==> !ClosesAt(raw, e')
    requires IsBlank(raw[BodyStart(raw, k)..e])
    ensures CleanReply(ChatReply(Some(raw))) == Some("")
  {
    FencedReplyYieldsStrippedBody(raw, k, e);
  }

  /**
   * A tagged block after prose without backticks, whose code holds no closing
   * fence before the one that ends the reply: only the code inside is kept.
   */
  lemma TaggedBlockAfterProse(prose: string, tag: string, code: string)
    requires '`' !in prose
    requires forall i :: 0 <= i < |tag| ==> IsTagChar(tag[i])
    requires forall e :: 0 <= e < |code| ==> !ClosesAt(code + "\n```", e)
    ensures CleanReply(ChatReply(Some(prose + "```" + tag + "\n" + code + "\n```")))
         == Some(Strip(code))
  {
    var s := prose + "```" + tag + "\n" + code + "\n```";
    var t := code + "\n```";
    var k := |prose|;
    var b := k + 4 + |tag|;
    var e := b + |code|;
    TagEndAt(s, k + 3, k + 3 + |tag|);
    assert IsMatch(s, k, e);
    forall k': nat, e': nat | k' < k ensures !IsMatch(s, k', e') {
      assert s[k'] == prose[k'];
    }
    assert s[b..] == t;
    forall e': nat | b <= e' < e ensures !ClosesAt(s, e') {
      var d := e' - b;
      assert !ClosesAt(t, d);
      assert s[e'] == t[d] && s[e' + 1] == t[d + 1];
      assert s[e' + 2] == t[d + 2] && s[e' + 3] == t[d + 3];
    }
    FencedReplyYieldsStrippedBody(s, k, e);
    assert s[b..e] == code;
  }
}
