/**
 Token estimates, truncation of contexts and the token budget (core/tokens.py), with the default
 estimate of four characters to a token.
 */
module Tokens {

  const CHARS_PER_TOKEN: nat := 4
  const TOKENS_PER_MESSAGE: nat := 4
  const FIELD_OVERHEAD: nat := 10

  // ----- Estimates -----

  function Estimate(text: string): nat {
    if text == "" then 0
    else if |text| / CHARS_PER_TOKEN < 1 then 1 else |text| / CHARS_PER_TOKEN
  }

  /** A field of a message: absent, a string, or something else that counts as present or not. */
  datatype Field = Missing | Text(text: string) | Other(truthy: bool)

  predicate Truthy(f: Field) {
    match f
    case Missing => false
    case Text(t) => t != ""
    case Other(b) => b
  }

  datatype Message = Message(body: Field, content: Field, subject: Field)

  function TextTokens(f: Field): nat { if Truthy(f) && f.Text? then Estimate(f.text) else 0 }

  function MessageTokens(m: Message): nat {
    TOKENS_PER_MESSAGE + TextTokens(if Truthy(m.body) then m.body else m.content)
    + TextTokens(m.subject) + FIELD_OVERHEAD
  }

  function Total(ms: seq<Message>): nat {
    if ms == [] then 0 else Total(ms[..|ms| - 1]) + MessageTokens(ms[|ms| - 1])
  }

  lemma {:induction false} TotalConcat(a: seq<Message>, b: seq<Message>)
    ensures Total(a + b) == Total(a) + Total(b)
  {
    if b == [] {
      assert a + b == a;
    } else {
      TotalConcat(a, b[..|b| - 1]);
      assert (a + b)[..|a + b| - 1] == a + b[..|b| - 1];
    }
  }

  /** A text fits into `n` tokens if the whole tokens in it are no more, and any text counts for one. */
  lemma TextFitsIff(text: string, n: int)
    ensures Estimate(text) <= n <==> (text == "" && n >= 0) || (n >= 1 && |text| < 4 * (n + 1))
  {
  }

  /** The characters of a field that are counted: those of a string. */
  function Chars(f: Field): string { if f.Text? then f.text else "" }

  /** The body is counted, or the content if there is no body; a body that is no string hides the content. */
  lemma MessageCost(m: Message)
    ensures Total([m]) == MessageTokens(m)
    ensures m.body in [Missing, Text(""), Other(false)] ==>
              MessageTokens(m) == 14 + Estimate(Chars(m.content)) + Estimate(Chars(m.subject))
    ensures m.body !in [Missing, Text(""), Other(false)] ==>
              MessageTokens(m) == 14 + Estimate(Chars(m.body)) + Estimate(Chars(m.subject))
  {
    assert [m][..0] == [];
    assert Truthy(m.body) <==> m.body !in [Missing, Text(""), Other(false)];
  }

  // ----- Truncating a list of messages -----

  function Reverse(ms: seq<Message>): (r: seq<Message>)
    ensures |r| == |ms|
  {
    seq(|ms|, i requires 0 <= i < |ms| => ms[|ms| - 1 - i])
  }

  /** The last `j` messages. */
  function Last(ms: seq<Message>, j: nat): seq<Message>
    requires j <= |ms|
  {
    ms[|ms| - j..]
  }

  lemma {:induction false} ReverseTotal(ms: seq<Message>)
    ensures Total(Reverse(ms)) == Total(ms)
  {
    if ms == [] {
    } else {
      var n := |ms| - 1;
      ReverseTotal(ms[..n]);
      assert Reverse(ms) == [ms[n]] + Reverse(ms[..n]);
      TotalConcat([ms[n]], Reverse(ms[..n]));
      assert [ms[n]][..0] == [];
    }
  }

  lemma ReverseSuffix(ms: seq<Message>, k: nat)
    requires k <= |ms|
    ensures Reverse(Reverse(ms)[..k]) == Last(ms, k)
  {
  }

  /** `k` messages from the front fit, and no more do; whatever does not fit, nothing longer fits either. */
  ghost predicate LongestPrefix(ms: seq<Message>, budget: int, k: nat) {
    && k <= |ms|
    && (k > 0 ==> Total(ms[..k]) <= budget)
    && (forall j :: k < j <= |ms| ==> Total(ms[..j]) > budget)
  }

  ghost predicate LongestSuffix(ms: seq<Message>, budget: int, k: nat) {
    && k <= |ms|
    && (k > 0 ==> Total(Last(ms, k)) <= budget)
    && (forall j :: k < j <= |ms| ==> Total(Last(ms, j)) > budget)
  }

  lemma {:induction false} LongerCostsMore(ms: seq<Message>, i: nat, j: nat)
    requires i <= j <= |ms|
    ensures Total(ms[..i]) <= Total(ms[..j])
    ensures i < j ==> Total(ms[..i]) < Total(ms[..j])
  {
    if i == j {
    } else {
      LongerCostsMore(ms, i, j - 1);
      assert ms[..j][..j - 1] == ms[..j - 1];
    }
  }

  /** The loop: messages are kept from the front until one does not fit. */
  method KeepFromFront(ms: seq<Message>, budget: int) returns (k: nat)
    ensures LongestPrefix(ms, budget, k)
  {
    k := 0;
    var total := 0;
    while k < |ms|
      invariant k <= |ms| && total == Total(ms[..k])
      invariant k > 0 ==> total <= budget
    {
      assert ms[..k + 1][..k] == ms[..k];
      if total + MessageTokens(ms[k]) > budget {
        forall j | k < j <= |ms| ensures Total(ms[..j]) > budget {
          LongerCostsMore(ms, k + 1, j);
        }
        return;
      }
      total := total + MessageTokens(ms[k]);
      k := k + 1;
    }
  }

  lemma PrefixOfReverse(ms: seq<Message>, budget: int, k: nat)
    requires LongestPrefix(Reverse(ms), budget, k)
    ensures LongestSuffix(ms, budget, k)
  {
    forall j | 0 <= j <= |ms| ensures Total(Reverse(ms)[..j]) == Total(Last(ms, j)) {
      ReverseTotal(Reverse(ms)[..j]);
      ReverseSuffix(ms, j);
    }
  }

  /**
   The messages come back in their own order: the longest run of the most recent ones that fits,
   or of the oldest ones when recent ones are not preferred.
   */
  method TruncateMessages(ms: seq<Message>, budget: int, preserveRecent: bool) returns (r: seq<Message>)
    ensures preserveRecent ==> LongestSuffix(ms, budget, |r|) && r == Last(ms, |r|)
    ensures !preserveRecent ==> LongestPrefix(ms, budget, |r|) && r == ms[..|r|]
  {
    if ms == [] {
      return [];
    }
    var order := if preserveRecent then Reverse(ms) else ms;
    var k := KeepFromFront(order, budget);
    r := order[..k];
    if preserveRecent {
      ReverseSuffix(ms, k);
      PrefixOfReverse(ms, budget, k);
      r := Reverse(r);
    }
  }

  /** The specification fixes the result, and the two modes mirror each other. */
  lemma ModesMirror(ms: seq<Message>, budget: int, k: nat, j: nat)
    requires LongestSuffix(ms, budget, k) && LongestPrefix(Reverse(ms), budget, j)
    ensures k == j && Last(ms, k) == Reverse(Reverse(ms)[..j])
  {
    PrefixOfReverse(ms, budget, j);
    ReverseSuffix(ms, j);
  }

  // ----- Truncating a text -----

  /** Python's `text[:n]`: a negative `n` counts from the end. */
  function SliceTo(text: string, n: int): string {
    if n >= 0 then (if n <= |text| then text[..n] else text)
    else if |text| + n >= 0 then text[..|text| + n] else ""
  }

  function TruncateText(text: string, maxTokens: int, suffix: string): string {
    if text == "" || Estimate(text) <= maxTokens then text
    else SliceTo(text, maxTokens * CHARS_PER_TOKEN - |suffix|) + suffix
  }

  /**
   A text that has to be cut comes out within the limit exactly when the limit leaves room for the
   suffix; otherwise the slice counts from the end and the result is over the limit.
   */
  lemma CutTextFitsIff(text: string, maxTokens: int, suffix: string)
    requires text != "" && Estimate(text) > maxTokens
    ensures Estimate(TruncateText(text, maxTokens, suffix)) <= maxTokens <==>
            maxTokens >= 0 && maxTokens * CHARS_PER_TOKEN >= |suffix|
  {
    var room := maxTokens * CHARS_PER_TOKEN - |suffix|;
    var cut := SliceTo(text, room);
    assert |cut + suffix| == |cut| + |suffix|;
    if 0 <= room {
      if maxTokens > 0 {
        assert |text| > room;
        assert |cut| == room;
      }
    }
  }

  /**
   A text within the limit is left alone.  Of one that has to be cut the beginning is kept, before the suffix:
   up to the limit in all, or, if the suffix alone is longer than that, without as many characters from the
   end as the suffix is too long.
   */
  lemma CutTextKeepsBeginning(text: string, maxTokens: int, suffix: string)
    ensures var r := TruncateText(text, maxTokens, suffix);
            if text == "" || Estimate(text) <= maxTokens then r == text
            else var kept, over := |r| - |suffix|, |suffix| - 4 * maxTokens;
                 && kept == (if over <= 0 then -over else if over < |text| then |text| - over else 0)
                 && kept <= |text| && r[..kept] == text[..kept] && r[kept..] == suffix
  {
  }

  // ----- The budget -----

  /** The sum of all values, in any order. */
  ghost function Sum(items: map<string, nat>): nat {
    if items == map[] then 0
    else
      var k :| k in items;
      items[k] + Sum(items - {k})
  }

  lemma {:induction false} SumWithout(items: map<string, nat>, name: string)
    requires name in items
    ensures Sum(items) == items[name] + Sum(items - {name})
    decreases |items|
  {
    var other :| other in items && Sum(items) == items[other] + Sum(items - {other});
    if other != name {
      SumWithout(items - {other}, name);
      SumWithout(items - {name}, other);
      assert items - {other} - {name} == items - {name} - {other};
    }
  }

  function Weight(items: map<string, nat>, name: string): nat { if name in items then items[name] else 0 }

  lemma SumAfterPut(items: map<string, nat>, name: string, tokens: nat)
    ensures Sum(items[name := tokens]) + Weight(items, name) == Sum(items) + tokens
  {
    var items' := items[name := tokens];
    SumWithout(items', name);
    if name in items {
      SumWithout(items, name);
      assert items' - {name} == items - {name};
    } else {
      assert items' - {name} == items;
    }
  }

  ghost function Remaining(items: map<string, nat>, limit: int): int {
    if limit - Sum(items) > 0 then limit - Sum(items) else 0
  }

  ghost predicate Exceeded(items: map<string, nat>, limit: int) { Sum(items) > limit }

  /** As much can be added under a new name, and no more, without exceeding a budget that holds. */
  lemma RemainingCanBeAdded(items: map<string, nat>, limit: int, name: string, tokens: nat)
    requires name !in items && !Exceeded(items, limit)
    ensures !Exceeded(items[name := tokens], limit) <==> tokens <= Remaining(items, limit)
  {
    SumAfterPut(items, name, tokens);
  }

  /** What a truncation to the remaining budget costs never exceeds it. */
  lemma TruncatedFits(ms: seq<Message>, items: map<string, nat>, limit: int, k: nat)
    requires LongestSuffix(ms, Remaining(items, limit), k)
    ensures Total(Last(ms, k)) <= Remaining(items, limit)
  {
    if k == 0 { assert Last(ms, 0) == []; }
  }

  /**
   The intended use: messages truncated to the remaining budget and added under any name, new or
   not, never turn a budget that holds into one that is exceeded.
   */
  lemma TruncateThenAddKeepsBudget(ms: seq<Message>, items: map<string, nat>, limit: int, name: string, k: nat)
    requires LongestSuffix(ms, Remaining(items, limit), k) && !Exceeded(items, limit)
    ensures !Exceeded(items[name := Total(Last(ms, k))], limit)
  {
    TruncatedFits(ms, items, limit, k);
    SumAfterPut(items, name, Total(Last(ms, k)));
  }

  /** An exceeded budget has nothing remaining, so truncation leaves no message to add to it. */
  lemma ExceededLeavesNothing(ms: seq<Message>, items: map<string, nat>, limit: int, k: nat)
    requires LongestSuffix(ms, Remaining(items, limit), k) && Exceeded(items, limit)
    ensures k == 0
  {
  }

  class TokenBudget {
    const maxTokens: int
    var items: map<string, nat>

    constructor (maxTokens: int)
      ensures this.maxTokens == maxTokens && items == map[]
    {
      this.maxTokens := maxTokens;
      items := map[];
    }

    method AddText(name: string, text: string) returns (tokens: nat)
      modifies this
      ensures tokens == Estimate(text) && items == old(items)[name := tokens]
    {
      tokens := Estimate(text);
      items := items[name := tokens];
    }

    method AddMessages(name: string, ms: seq<Message>) returns (tokens: nat)
      modifies this
      ensures tokens == Total(ms) && items == old(items)[name := tokens]
    {
      tokens := 0;
      for i := 0 to |ms|
        invariant tokens == Total(ms[..i])
      {
        assert ms[..i + 1][..i] == ms[..i];
        tokens := tokens + MessageTokens(ms[i]);
      }
      assert ms[..|ms|] == ms;
      items := items[name := tokens];
    }

    /** The total of all items, one after the other in any order. */
    method TotalUsage() returns (total: nat)
      ensures total == Sum(items)
    {
      total := 0;
      var rest := items;
      while rest != map[]
        invariant total + Sum(rest) == Sum(items)
        decreases |rest|
      {
        var name :| name in rest;
        SumWithout(rest, name);
        total := total + rest[name];
        rest := rest - {name};
      }
    }

    method RemainingTokens() returns (n: nat)
      ensures n == Remaining(items, maxTokens)
    {
      var total := TotalUsage();
      n := if maxTokens - total > 0 then maxTokens - total else 0;
    }

    method IsExceeded() returns (b: bool)
      ensures b <==> Exceeded(items, maxTokens)
    {
      var total := TotalUsage();
      b := total > maxTokens;
    }
  }
}
