/** Multi-strings of the Windows registry: lists of strings kept in one buffer, each
    followed by a NUL, and the whole by one more. */
module MultiString {

  const NUL := 0 as char

  const ERROR_INVALID_DATA := 13

  datatype Result<T> = Success(value: T) | Failure(code: int)

  predicate NulFree(s: string) {
    NUL !in s
  }

  predicate IsDoubleNullTerminated(data: string) {
    |data| >= 2 && data[|data| - 1] == NUL && data[|data| - 2] == NUL
  }

  // ----- the format -----

  function Flatten(data: seq<string>): string {
    if data == [] then [] else data[0] + [NUL] + Flatten(data[1..])
  }

  /** The buffer for a list of strings. */
  function Built(data: seq<string>): string {
    if data == [] then [NUL, NUL] else Flatten(data) + [NUL]
  }

  function TotalLength(data: seq<string>): nat {
    if data == [] then 0 else |data[0]| + 1 + TotalLength(data[1..])
  }

  /** The first NUL at or after a position, or the end. */
  function NulFrom(data: string, at: nat): (n: nat)
    requires at <= |data|
    ensures at <= n <= |data| && (n < |data| ==> data[n] == NUL)
    ensures forall k :: at <= k < n ==> data[k] != NUL
    decreases |data| - at
  {
    if at == |data| || data[at] == NUL then at else NulFrom(data, at + 1)
  }

  /** The strings between the NULs. */
  function Split(data: string): seq<string> {
    if data == [] then []
    else
      var n := NulFrom(data, 0);
      if n == |data| then [data] else [data[..n]] + Split(data[n + 1..])
  }

  function Parsed(data: string): Result<seq<string>> {
    if IsDoubleNullTerminated(data) then Success(Split(data[..|data| - 1])) else Failure(ERROR_INVALID_DATA)
  }

  // ----- the operations -----

  method BuildMultiString(data: seq<string>) returns (multiString: string)
    ensures multiString == Built(data)
    ensures |multiString| == if data == [] then 2 else TotalLength(data) + 1
  {
    if data == [] {
      return [NUL, NUL];
    }
    var totalLen := 0;
    for i := 0 to |data|
      invariant totalLen + TotalLength(data[i..]) == TotalLength(data)
    {
      totalLen := totalLen + (|data[i]| + 1);
    }
    totalLen := totalLen + 1;

    multiString := [];
    for i := 0 to |data|
      invariant multiString + Flatten(data[i..]) == Flatten(data)
    {
      FlattenStep(multiString, data, i);
      if data[i] != [] {
        multiString := multiString + data[i];
      }
      multiString := multiString + [NUL];
    }
    multiString := multiString + [NUL];
    BuiltFacts(data);
    assert |multiString| == totalLen;
  }

  lemma FlattenStep(front: string, data: seq<string>, i: nat)
    requires i < |data|
    ensures front + Flatten(data[i..]) == front + data[i] + [NUL] + Flatten(data[i + 1..])
    ensures front + [] == front
  {
    assert data[i..][1..] == data[i + 1..];
  }

  /** The length of the string at a position, which ends at the next NUL. */
  method Wcslen(data: string, at: nat) returns (length: nat)
    requires at < |data| && data[|data| - 1] == NUL
    ensures at + length == NulFrom(data, at) < |data|
  {
    length := 0;
    while data[at + length] != NUL
      invariant at + length < |data|
      invariant NulFrom(data, at + length) == NulFrom(data, at)
      decreases |data| - length
    {
      length := length + 1;
    }
  }

  method ParseMultiString(data: string) returns (r: Result<seq<string>>)
    ensures r == Parsed(data)
  {
    hide Split, NulFrom;
    if !IsDoubleNullTerminated(data) {
      return Failure(ERROR_INVALID_DATA);
    }
    var result := [];
    var curr := 0;
    var end := |data| - 1;
    ghost var body := data[..end];
    assert data[0..end] == body;
    while curr < end
      invariant curr <= end
      invariant result + Split(data[curr..end]) == Split(body)
      decreases end - curr
    {
      var currStringLength := Wcslen(data, curr);
      SplitStep(data, curr, end, result);
      if currStringLength > 0 {
        result := result + [data[curr..curr + currStringLength]];
      } else {
        assert data[curr..curr] == "";
        result := result + [""];
      }
      curr := curr + currStringLength + 1;
    }
    // the cursor stops at the last NUL, not beyond it
    assert curr == end;
    assert data[end..end] == [] && result + [] == result;
    SplitEmpty();
    r := Success(result);
  }

  lemma SplitEmpty()
    ensures Split([]) == []
  {
  }

  lemma NulIs(data: string, at: nat, n: nat)
    requires at <= n < |data| && data[n] == NUL
    requires forall k :: at <= k < n ==> data[k] != NUL
    ensures NulFrom(data, at) == n
  {
  }

  /** Scanning the whole buffer from a position before its last NUL finds a NUL that
      is not the last one. */
  lemma SplitStep(data: string, curr: nat, end: nat, front: seq<string>)
    requires curr < end == |data| - 1 && data[end] == NUL && data[end - 1] == NUL
    ensures var n := NulFrom(data, curr);
      && n < end
      && front + Split(data[curr..end]) == front + [data[curr..n]] + Split(data[n + 1..end])
  {
    hide Split;
    var n, rest := NulFrom(data, curr), data[curr..end];
    assert n < end by { assert data[end - 1] == NUL; }
    var first, more := data[curr..n], data[n + 1..end];
    assert rest == first + [NUL] + more;
    assert forall k :: 0 <= k < n - curr ==> first[k] == data[curr + k];
    SplitFirst(first, more);
    assert front + ([first] + Split(more)) == front + [first] + Split(more);
  }

  lemma SplitFirst(s: string, more: string)
    requires NulFree(s)
    ensures Split(s + [NUL] + more) == [s] + Split(more)
  {
    var data := s + [NUL] + more;
    assert forall k :: 0 <= k < |s| ==> data[k] == s[k];
    SplitAt(data, |s|);
    assert data[..|s|] == s && data[|s| + 1..] == more;
  }

  lemma SplitAt(data: string, n: nat)
    requires n < |data| && data[n] == NUL
    requires forall k :: 0 <= k < n ==> data[k] != NUL
    ensures Split(data) == [data[..n]] + Split(data[n + 1..])
  {
    NulIs(data, 0, n);
  }

  // ----- the two are inverse to each other -----

  lemma {:induction false} FlattenFacts(data: seq<string>)
    ensures |Flatten(data)| == TotalLength(data)
    ensures data != [] ==> Flatten(data) != [] && Flatten(data)[|Flatten(data)| - 1] == NUL
  {
    if data != [] {
      FlattenFacts(data[1..]);
    }
  }

  /** Every buffer that is built is accepted, and has the length computed for it. */
  lemma BuiltFacts(data: seq<string>)
    ensures IsDoubleNullTerminated(Built(data))
    ensures |Built(data)| == if data == [] then 2 else TotalLength(data) + 1
  {
    FlattenFacts(data);
  }

  lemma {:induction false} FlattenAt(data: seq<string>, i: nat)
    requires i < |data|
    ensures var at := TotalLength(data[..i]);
      && at + |data[i]| < |Flatten(data)|
      && Flatten(data)[at..at + |data[i]|] == data[i] && Flatten(data)[at + |data[i]|] == '\0'
  {
    var head, tail := data[0] + [NUL], Flatten(data[1..]);
    assert Flatten(data) == head + tail;
    if i == 0 {
      assert (head + tail)[..|data[0]|] == data[0];
    } else {
      FlattenAt(data[1..], i - 1);
      assert data[..i][1..] == data[1..][..i - 1] && data[..i][0] == data[0];
      var at := TotalLength(data[1..][..i - 1]);
      SliceBehind(head, tail, at, |data[i]|);
    }
  }

  lemma SliceBehind(head: string, tail: string, at: nat, n: nat)
    requires at + n < |tail|
    ensures (head + tail)[|head| + at..|head| + at + n] == tail[at..at + n]
    ensures (head + tail)[|head| + at + n] == tail[at + n]
  {
  }

  /** The layout of a buffer: the strings one after the other, each with a NUL behind it,
      and one NUL more. */
  lemma BuiltLayout(data: seq<string>, i: nat)
    requires i < |data|
    ensures var (buffer, at) := (Built(data), TotalLength(data[..i]));
      && |buffer| == TotalLength(data) + 1 && buffer[|buffer| - 1] == '\0' && at + |data[i]| + 1 < |buffer|
      && buffer[at..at + |data[i]|] == data[i] && buffer[at + |data[i]|] == '\0'
  {
    FlattenFacts(data);
    FlattenAt(data, i);
  }

  lemma {:induction false} SplitFlatten(data: seq<string>)
    requires forall s :: s in data ==> NulFree(s)
    ensures Split(Flatten(data)) == data
  {
    if data != [] {
      assert data[0] in data && forall t :: t in data[1..] ==> t in data;
      SplitFlatten(data[1..]);
      SplitFirst(data[0], Flatten(data[1..]));
      assert data == [data[0]] + data[1..];
    }
  }

  lemma {:induction false} FlattenSplit(body: string)
    requires body != [] ==> body[|body| - 1] == NUL
    ensures Flatten(Split(body)) == body
    ensures forall s :: s in Split(body) ==> NulFree(s)
    ensures body != [] ==> Split(body) != []
    decreases |body|
  {
    hide Split, NulFrom, Flatten;
    if body == [] {
      SplitEmpty();
      FlattenEmpty();
    } else {
      var n := NulFrom(body, 0);
      assert n < |body| by { assert body[|body| - 1] == NUL; }
      var first, rest := body[..n], body[n + 1..];
      SplitAt(body, n);
      FlattenSplit(rest);
      FlattenCons(first, Split(rest));
      assert body == first + [NUL] + rest;
    }
  }

  lemma FlattenEmpty()
    ensures Flatten([]) == []
  {
  }

  lemma FlattenCons(s: string, more: seq<string>)
    ensures Flatten([s] + more) == s + [NUL] + Flatten(more)
  {
    assert ([s] + more)[1..] == more;
  }

  /** Parsing gives back exactly the non-empty lists of strings without a NUL. */
  lemma ParseBuilt(data: seq<string>)
    ensures Parsed(Built(data)) == Success(data) <==> data != [] && forall s :: s in data ==> NulFree(s)
  {
    BuiltFacts(data);
    var buffer := Built(data);
    var body := buffer[..|buffer| - 1];
    FlattenSplit(body);
    if data == [] {
      assert Split(body) != [];
    } else {
      assert body == Flatten(data);
      if forall s :: s in data ==> NulFree(s) {
        SplitFlatten(data);
      }
    }
  }

  /** The empty list does not survive: it comes back as one empty string. */
  lemma ParseBuiltEmpty()
    ensures Parsed(Built([])) == Success([""])
  {
    assert Built([])[..1] == [NUL];
    SplitFirst("", "");
    assert "" + [NUL] + "" == [NUL] && Split("") == [];
    assert [""] + [] == [""];
  }

  /** Building from what was parsed gives every accepted buffer back. */
  lemma BuiltParsed(data: string)
    ensures Parsed(data).Success? <==> |data| >= 2 && data[|data| - 1] == '\0' && data[|data| - 2] == '\0'
    ensures Parsed(data).Failure? ==> Parsed(data).code == 13
    ensures Parsed(data).Success? ==>
      var strings := Parsed(data).value;
      Built(strings) == data && strings != [] && forall s :: s in strings ==> NulFree(s)
  {
    if IsDoubleNullTerminated(data) {
      FlattenSplit(data[..|data| - 1]);
      assert data == data[..|data| - 1] + [NUL];
    }
  }

  function Cut(data: seq<string>): seq<string> {
    if data == [] then [] else Split(data[0] + [NUL]) + Cut(data[1..])
  }

  lemma {:induction false} SplitIsCut(data: seq<string>)
    ensures Split(Flatten(data)) == Cut(data)
  {
    if data != [] {
      SplitIsCut(data[1..]);
      SplitConcat(data[0] + [NUL], Flatten(data[1..]));
    }
  }

  lemma {:induction false} SplitConcat(a: string, b: string)
    requires a != [] ==> a[|a| - 1] == NUL
    ensures Split(a + b) == Split(a) + Split(b)
    decreases |a|
  {
    hide Split, NulFrom;
    if a == [] {
      SplitEmpty();
      assert a + b == b;
    } else {
      var n := NulFrom(a, 0);
      assert n < |a|;
      assert forall k :: 0 <= k <= n ==> (a + b)[k] == a[k];
      SplitAt(a + b, n);
      SplitAt(a, n);
      assert (a + b)[..n] == a[..n];
      assert (a + b)[n + 1..] == a[n + 1..] + b;
      SplitConcat(a[n + 1..], b);
      assert [a[..n]] + (Split(a[n + 1..]) + Split(b)) == [a[..n]] + Split(a[n + 1..]) + Split(b);
    }
  }

  /** What any non-empty list parses to: its strings, each cut at the NULs inside. */
  lemma ParseCuts(data: seq<string>)
    requires data != []
    ensures Parsed(Built(data)) == Success(Cut(data))
  {
    BuiltFacts(data);
    assert Built(data)[..|Built(data)| - 1] == Flatten(data);
    SplitIsCut(data);
  }
}
