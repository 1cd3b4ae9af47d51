/** Shared vocabulary of the remote: the failure-compatible Option and Result
    wrappers, the error taxonomy of the client, the selector a caller resolves
    an entity with, and a few sequence helpers used throughout. */
module Base {

  /** One octet on the wire. */
  type byte = x: int | 0 <= x < 256

  datatype Option<+T> = None | Some(value: T)

  /** How a caller picked one speaker or source: by id, by display name, or by
      a set of keywords. Carried by the resolution errors. */
  datatype Selector =
    | ById(id: string)
    | ByName(name: string)
    | ByKeywords(words: seq<string>)

  /** Every way an operation of the client can fail. The names say which
      exception the Python client raises at that point. */
  datatype Error =
    | NoSelector                      // ValueError: called with no parameters
    | TooManySelectors                // ValueError: only one keyword parameter can be passed
    | KeywordsNotList                 // ValueError: keywords parameter must be a list
    | NotFound(selector: Selector)    // ValueError: no speakers/sources were found with ...
    | NoSystemAudio                   // AttributeError: no source named 'System Audio'
    | NotNumber(what: string)         // ValueError: volume/seconds must be a 'float' or 'int'
    | VolumeOutOfRange                // ValueError: volume must be from 0.0 to 1.0
    | TicksNotInt                     // ValueError: ticks must be an 'int'
    | DivisionByZero                  // ZeroDivisionError: seconds / ticks with ticks == 0
    | NotList(what: string)           // ValueError: ids/names must be a list
    | NeedIdsOrNames                  // ValueError: either a list of ids or a list of names
    | UnknownSpeakerId(id: string)    // ValueError: no speaker with id ... was found
    | MissingKey(key: string)         // KeyError while reading a reply
    | StreamEnded                     // the replies ran out before the awaited one
    | NothingFetched                  // TypeError: iterating the None a refused fetch returned
    | Stalled                         // the byte stream ran dry inside a frame
    | Undecodable                     // a length-prefix byte is not valid UTF-8
    | BadLength                       // ValueError: int('') on a prefix without digits
    | NotAscii                        // UnicodeEncodeError: the frame is not ASCII
    | IndexOutOfRange                 // IndexError while laying out a table
    | NegativeWidth                   // ValueError: sign not allowed in string format specifier
    | WrapsForever                    // a table cell with text in a column of width 0 never ends

  datatype Result<+T> = Ok(value: T) | Err(error: Error) {
    predicate IsFailure() { Err? }

    function PropagateFailure<U>(): Result<U>
      requires Err?
    {
      Err(error)
    }

    function Extract(): T
      requires Ok?
    {
      value
    }

    /** The same outcome, with a success wrapped in `Some`. */
    function MapSome(): Result<Option<T>>
    {
      if Ok? then Ok(Some(value)) else Err(error)
    }
  }

  function Min(a: int, b: int): int { if a < b then a else b }

  function Max(a: int, b: int): int { if a < b then b else a }

  function Abs(a: int): nat { if a < 0 then -a else a }

  /** The index of the last element satisfying `p`: the selection rule of a
      Python loop that overwrites its choice on every match. */
  function LastIndex<T>(xs: seq<T>, p: T -> bool): (r: Option<nat>)
    ensures r.Some? ==> r.value < |xs| && p(xs[r.value])
    ensures r.Some? ==> forall j :: r.value < j < |xs| ==> !p(xs[j])
    ensures r.None? <==> forall j :: 0 <= j < |xs| ==> !p(xs[j])
  {
    if |xs| == 0 then None
    else if p(xs[|xs| - 1]) then Some(|xs| - 1)
    else LastIndex(xs[..|xs| - 1], p)
  }

  /** Two tests that agree on every element pick the same one. */
  lemma {:induction false} LastIndexAgrees<T>(xs: seq<T>, p: T -> bool, q: T -> bool)
    requires forall j :: 0 <= j < |xs| ==> p(xs[j]) == q(xs[j])
    ensures LastIndex(xs, p) == LastIndex(xs, q)
  {
    if |xs| > 0 {
      LastIndexAgrees(xs[..|xs| - 1], p, q);
    }
  }

  predicate OccursAt<T(==)>(s: seq<T>, pat: seq<T>, i: int) {
    0 <= i && i + |pat| <= |s| && s[i..i + |pat|] == pat
  }

  /** Python `pat in s`, on strings and on byte strings alike. */
  predicate Contains<T(==)>(s: seq<T>, pat: seq<T>) {
    exists i | 0 <= i <= |s| :: OccursAt(s, pat, i)
  }

  function Filter<T>(xs: seq<T>, p: T -> bool): (r: seq<T>)
    ensures |r| <= |xs|
  {
    if xs == [] then []
    else (if p(xs[0]) then [xs[0]] else []) + Filter(xs[1..], p)
  }

  /** Python's list comprehension `[f(x) for x in xs]`. */
  function Map<T, U>(xs: seq<T>, f: T -> U): (r: seq<U>)
    ensures |r| == |xs| && forall i :: 0 <= i < |xs| ==> r[i] == f(xs[i])
  {
    seq(|xs|, i requires 0 <= i < |xs| => f(xs[i]))
  }

  /** Mapping after filtering, one element at a time. */
  lemma MapFilterCons<T, U>(xs: seq<T>, p: T -> bool, f: T -> U)
    requires xs != []
    ensures Map(Filter(xs, p), f) == (if p(xs[0]) then [f(xs[0])] else []) + Map(Filter(xs[1..], p), f)
  {
    var head := if p(xs[0]) then [xs[0]] else [];
    assert Filter(xs, p) == head + Filter(xs[1..], p);
    MapAppend(head, Filter(xs[1..], p), f);
    assert Map(head, f) == if p(xs[0]) then [f(xs[0])] else [];
  }

  /** Mapping a concatenation maps each part. */
  lemma MapAppend<T, U>(a: seq<T>, b: seq<T>, f: T -> U)
    ensures Map(a + b, f) == Map(a, f) + Map(b, f)
  {
    var l, r := Map(a + b, f), Map(a, f) + Map(b, f);
    assert |l| == |r|;
    forall i | 0 <= i < |l| ensures l[i] == r[i] {
      if i < |a| { assert (a + b)[i] == a[i]; } else { assert (a + b)[i] == b[i - |a|]; }
    }
  }

  /** Filtering a concatenation filters each part. */
  lemma {:induction false} FilterAppend<T>(a: seq<T>, b: seq<T>, p: T -> bool)
    ensures Filter(a + b, p) == Filter(a, p) + Filter(b, p)
  {
    if a != [] {
      assert (a + b)[0] == a[0] && (a + b)[1..] == a[1..] + b;
      FilterAppend(a[1..], b, p);
    } else {
      assert a + b == b;
    }
  }

  /** A filter every element passes keeps everything; one no element
      passes keeps nothing. */
  lemma {:induction false} FilterUniform<T>(xs: seq<T>, p: T -> bool)
    ensures (forall i :: 0 <= i < |xs| ==> p(xs[i])) ==> Filter(xs, p) == xs
    ensures (forall i :: 0 <= i < |xs| ==> !p(xs[i])) ==> Filter(xs, p) == []
  {
    if xs != [] {
      FilterUniform(xs[1..], p);
      assert forall i :: 0 <= i < |xs[1..]| ==> xs[1..][i] == xs[i + 1];
      assert [xs[0]] + xs[1..] == xs;
    }
  }

  function Flatten<T>(xss: seq<seq<T>>): seq<T>
  {
    if xss == [] then [] else xss[0] + Flatten(xss[1..])
  }

  function Sum(xs: seq<int>): int
  {
    if xs == [] then 0 else xs[0] + Sum(xs[1..])
  }

  /** Cutting a concatenation where its parts meet gives the parts back. */
  lemma SplitAt<T>(a: seq<T>, b: seq<T>)
    ensures (a + b)[..|a|] == a && (a + b)[|a|..] == b
  {
  }

  lemma Assoc<T>(a: seq<T>, b: seq<T>, c: seq<T>)
    ensures (a + b) + c == a + (b + c)
  {
  }
}
