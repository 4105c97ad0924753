/**
 * The serialisation behind `JSON.stringify` / `JSON.parse` for the two structured values the
 * component keeps in storage: the user record under `"user"` and the task list under the todo
 * key. The text format is this model's own; what matters is that decoding is partial (a text
 * that is not an encoding fails, as `JSON.parse` throws) and undoes encoding exactly.
 */
module Codec {
  import opened Wrappers
  import opened Todos

  /** The fields of a parsed user object; a field the object lacks is `None`. */
  datatype UserFields = UserFields(name: Option<string>, email: Option<string>,
                                   password: Option<string>, signupDate: Option<string>)

  /** What `JSON.parse` of the `"user"` text gives: `null` or an object. */
  datatype UserValue = Null | Obj(fields: UserFields)

  // ---------------------------------------------------------------------------------------
  // Strings: quoted, with `"` and `\` escaped by a backslash.
  // ---------------------------------------------------------------------------------------

  function Escape(s: string): string {
    if s == [] then []
    else (if s[0] == '"' || s[0] == '\\' then ['\\', s[0]] else [s[0]]) + Escape(s[1..])
  }

  function EncodeString(s: string): string {
    ['"'] + Escape(s) + ['"']
  }

  /** Reads the rest of a quoted string up to its closing quote; also returns what follows. */
  function DecodeStringBody(s: string): (r: Option<(string, string)>)
    ensures r.Some? ==> |r.value.1| < |s|
  {
    if s == [] then None
    else if s[0] == '"' then Some(([], s[1..]))
    else if s[0] == '\\' then
      if |s| < 2 || !(s[1] == '"' || s[1] == '\\') then None
      else match DecodeStringBody(s[2..])
        case None => None
        case Some((t, rest)) => Some(([s[1]] + t, rest))
    else match DecodeStringBody(s[1..])
      case None => None
      case Some((t, rest)) => Some(([s[0]] + t, rest))
  }

  function DecodeString(s: string): (r: Option<(string, string)>)
    ensures r.Some? ==> |r.value.1| < |s|
  {
    if s != [] && s[0] == '"' then DecodeStringBody(s[1..]) else None
  }

  lemma {:induction false} StringBodyRoundTrip(x: string, rest: string)
    ensures DecodeStringBody(Escape(x) + ['"'] + rest) == Some((x, rest))
    decreases |x|
  {
    var s := Escape(x) + ['"'] + rest;
    if x == [] {
      assert s == ['"'] + rest;
    } else {
      StringBodyRoundTrip(x[1..], rest);
      var tail := Escape(x[1..]) + ['"'] + rest;
      if x[0] == '"' || x[0] == '\\' {
        assert s == ['\\', x[0]] + tail;
        assert s[2..] == tail;
      } else {
        assert s == [x[0]] + tail;
        assert s[1..] == tail;
      }
      assert [x[0]] + x[1..] == x;
    }
  }

  lemma StringRoundTrip(x: string, rest: string)
    ensures DecodeString(EncodeString(x) + rest) == Some((x, rest))
  {
    var s := EncodeString(x) + rest;
    assert s[1..] == Escape(x) + ['"'] + rest;
    StringBodyRoundTrip(x, rest);
  }

  /** An optional string: `-` when absent. */
  function EncodeOptString(o: Option<string>): string {
    match o
    case None => ['-']
    case Some(x) => EncodeString(x)
  }

  function DecodeOptString(s: string): (r: Option<(Option<string>, string)>)
    ensures r.Some? ==> |r.value.1| < |s|
  {
    if s != [] && s[0] == '-' then Some((None, s[1..]))
    else match DecodeString(s)
      case None => None
      case Some((x, rest)) => Some((Some(x), rest))
  }

  lemma OptStringRoundTrip(o: Option<string>, rest: string)
    ensures DecodeOptString(EncodeOptString(o) + rest) == Some((o, rest))
  {
    match o
    case None =>
      assert (['-'] + rest)[1..] == rest;
    case Some(x) =>
      StringRoundTrip(x, rest);
  }

  // ---------------------------------------------------------------------------------------
  // Naturals (ids, timestamps): decimal digits closed by `;`. Booleans: `t` or `f`.
  // ---------------------------------------------------------------------------------------

  predicate IsDigit(c: char) { '0' <= c && c <= '9' }

  predicate AllDigits(ds: string) { forall i :: 0 <= i < |ds| ==> IsDigit(ds[i]) }

  function DigitChar(d: nat): char
    requires d < 10
  {
    ('0' as int + d) as char
  }

  function DigitValue(c: char): nat
    requires IsDigit(c)
  {
    c as int - '0' as int
  }

  /** The decimal representation of `n`, most significant digit first. */
  function Digits(n: nat): string
    decreases n
  {
    if n < 10 then [DigitChar(n)] else Digits(n / 10) + [DigitChar(n % 10)]
  }

  /** The value of a run of decimal digits. */
  function ParseDigits(ds: string): nat
    requires AllDigits(ds)
    decreases |ds|
  {
    if ds == [] then 0 else ParseDigits(ds[..|ds| - 1]) * 10 + DigitValue(ds[|ds| - 1])
  }

  /** The length of the run of digits at the front of `s`. */
  function DigitSpan(s: string): (k: nat)
    ensures k <= |s| && AllDigits(s[..k])
    ensures k < |s| ==> !IsDigit(s[k])
  {
    if s != [] && IsDigit(s[0]) then
      var k := 1 + DigitSpan(s[1..]);
      assert forall i :: 1 <= i < k ==> s[i] == s[1..][i - 1];
      k
    else 0
  }

  function EncodeNat(n: nat): string {
    Digits(n) + [';']
  }

  function DecodeNat(s: string): (r: Option<(nat, string)>)
    ensures r.Some? ==> |r.value.1| < |s|
  {
    var k := DigitSpan(s);
    if 0 < k < |s| && s[k] == ';' then Some((ParseDigits(s[..k]), s[k + 1..])) else None
  }

  lemma {:induction false} DigitsRoundTrip(n: nat)
    ensures |Digits(n)| > 0 && AllDigits(Digits(n)) && ParseDigits(Digits(n)) == n
    decreases n
  {
    if n >= 10 {
      DigitsRoundTrip(n / 10);
      var ds := Digits(n);
      assert ds[..|ds| - 1] == Digits(n / 10);
    }
  }

  lemma {:induction false} DigitSpanOfDigits(ds: string, rest: string)
    requires AllDigits(ds)
    requires rest == [] || !IsDigit(rest[0])
    ensures DigitSpan(ds + rest) == |ds|
    decreases |ds|
  {
    if ds != [] {
      assert (ds + rest)[1..] == ds[1..] + rest;
      DigitSpanOfDigits(ds[1..], rest);
    } else {
      assert ds + rest == rest;
    }
  }

  lemma NatRoundTrip(n: nat, rest: string)
    ensures DecodeNat(EncodeNat(n) + rest) == Some((n, rest))
  {
    var ds := Digits(n);
    var s := EncodeNat(n) + rest;
    DigitsRoundTrip(n);
    assert s == ds + ([';'] + rest);
    DigitSpanOfDigits(ds, [';'] + rest);
    assert s[..|ds|] == ds;
    assert s[|ds| + 1..] == rest;
  }

  function EncodeBool(b: bool): string {
    if b then ['t'] else ['f']
  }

  function DecodeBool(s: string): (r: Option<(bool, string)>)
    ensures r.Some? ==> |r.value.1| < |s|
  {
    if s != [] && s[0] == 't' then Some((true, s[1..]))
    else if s != [] && s[0] == 'f' then Some((false, s[1..]))
    else None
  }

  lemma BoolRoundTrip(b: bool, rest: string)
    ensures DecodeBool(EncodeBool(b) + rest) == Some((b, rest))
  {
    assert (EncodeBool(b) + rest)[1..] == rest;
  }

  // ---------------------------------------------------------------------------------------
  // Task records and the task list (`JSON.stringify(todos)`).
  // ---------------------------------------------------------------------------------------

  function EncodeTodo(t: Todo): string {
    EncodeNat(t.id) + (EncodeString(t.text) + EncodeFlags(t))
  }

  /** The fields after `id` and `text`: `completed`, `important`, `createdAt`, `deleting`. */
  function EncodeFlags(t: Todo): string {
    EncodeBool(t.completed) + (EncodeBool(t.important) + (EncodeNat(t.createdAt) + EncodeBool(t.deleting)))
  }

  function DecodeTodo(s: string): (r: Option<(Todo, string)>)
    ensures r.Some? ==> |r.value.1| < |s|
  {
    match DecodeNat(s)
    case None => None
    case Some((id, s1)) =>
      match DecodeString(s1)
      case None => None
      case Some((text, s2)) => DecodeFlags(id, text, s2)
  }

  /** Decodes the fields `EncodeFlags` writes and completes the record with `id` and `text`. */
  function DecodeFlags(id: nat, text: string, s: string): (r: Option<(Todo, string)>)
    ensures r.Some? ==> |r.value.1| < |s|
  {
    match DecodeBool(s)
    case None => None
    case Some((completed, s1)) =>
      match DecodeBool(s1)
      case None => None
      case Some((important, s2)) =>
        match DecodeNat(s2)
        case None => None
        case Some((createdAt, s3)) =>
          match DecodeBool(s3)
          case None => None
          case Some((deleting, s4)) =>
            Some((Todo(id, text, completed, important, createdAt, deleting), s4))
  }

  /** Storing a task record and reading it back gives the same record and leaves what follows. */
  lemma TodoRoundTrip(t: Todo, rest: string)
    ensures DecodeTodo(EncodeTodo(t) + rest) == Some((t, rest))
  {
    var s2 := EncodeFlags(t) + rest;
    var s1 := EncodeString(t.text) + s2;
    assert EncodeTodo(t) + rest == EncodeNat(t.id) + s1;
    NatRoundTrip(t.id, s1);
    StringRoundTrip(t.text, s2);
    FlagsRoundTrip(t, rest);
  }

  /** The fields after `id` and `text` read back as they were written. */
  lemma FlagsRoundTrip(t: Todo, rest: string)
    ensures DecodeFlags(t.id, t.text, EncodeFlags(t) + rest) == Some((t, rest))
  {
    var s3 := EncodeBool(t.deleting) + rest;
    var s2 := EncodeNat(t.createdAt) + s3;
    var s1 := EncodeBool(t.important) + s2;
    assert EncodeFlags(t) + rest == EncodeBool(t.completed) + s1;
    BoolRoundTrip(t.completed, s1);
    BoolRoundTrip(t.important, s2);
    NatRoundTrip(t.createdAt, s3);
    BoolRoundTrip(t.deleting, rest);
  }

  /** The records one after another, closed by `]`. */
  function EncodeItems(ts: seq<Todo>): string {
    if ts == [] then [']'] else EncodeTodo(ts[0]) + EncodeItems(ts[1..])
  }

  function DecodeItems(s: string): (r: Option<(seq<Todo>, string)>)
    ensures r.Some? ==> |r.value.1| < |s|
    decreases |s|
  {
    if s == [] then None
    else if s[0] == ']' then Some(([], s[1..]))
    else match DecodeTodo(s)
      case None => None
      case Some((t, rest)) =>
        match DecodeItems(rest)
        case None => None
        case Some((ts, rest')) => Some(([t] + ts, rest'))
  }

  function EncodeTodos(ts: seq<Todo>): string {
    ['['] + EncodeItems(ts)
  }

  /** `JSON.parse` of the stored task list: the whole text must be one list. */
  function DecodeTodos(s: string): Option<seq<Todo>> {
    if s != [] && s[0] == '[' then
      match DecodeItems(s[1..])
      case Some((ts, rest)) => if rest == [] then Some(ts) else None
      case None => None
    else None
  }

  lemma {:induction false} ItemsRoundTrip(ts: seq<Todo>, rest: string)
    ensures DecodeItems(EncodeItems(ts) + rest) == Some((ts, rest))
    decreases |ts|
  {
    var s := EncodeItems(ts) + rest;
    if ts == [] {
      assert s[1..] == rest;
    } else {
      var tail := EncodeItems(ts[1..]) + rest;
      var e := EncodeTodo(ts[0]);
      assert s == e + tail;
      TodoStartsWithDigit(ts[0]);
      assert s[0] != ']' by {
        assert s[0] == e[0];
      }
      TodoRoundTrip(ts[0], tail);
      ItemsRoundTrip(ts[1..], rest);
      DecodeItemsCons(s, ts[0], tail, ts[1..], rest);
      assert [ts[0]] + ts[1..] == ts;
    }
  }

  /** A list text that does not start with `]` is one record followed by the rest of the list. */
  lemma DecodeItemsCons(s: string, t: Todo, tail: string, ts: seq<Todo>, rest: string)
    requires s != [] && s[0] != ']'
    requires DecodeTodo(s) == Some((t, tail)) && DecodeItems(tail) == Some((ts, rest))
    ensures DecodeItems(s) == Some(([t] + ts, rest))
  {
  }

  /** A stored task begins with a digit of its id, so never with the closing `]`. */
  lemma TodoStartsWithDigit(t: Todo)
    ensures |EncodeTodo(t)| > 0 && IsDigit(EncodeTodo(t)[0])
  {
    DigitsRoundTrip(t.id);
    var ds := Digits(t.id);
    assert EncodeTodo(t)[0] == EncodeNat(t.id)[0] == ds[0];
  }

  /** Storing a task list and reading it back gives the same list, field for field. */
  lemma TodosRoundTrip(ts: seq<Todo>)
    ensures DecodeTodos(EncodeTodos(ts)) == Some(ts)
  {
    var s := EncodeTodos(ts);
    assert s[1..] == EncodeItems(ts) + [];
    ItemsRoundTrip(ts, []);
  }

  // ---------------------------------------------------------------------------------------
  // The user record (`JSON.stringify(user)`).
  // ---------------------------------------------------------------------------------------

  function EncodeUser(v: UserValue): string {
    match v
    case Null => "null"
    case Obj(u) =>
      ['{'] + (EncodeOptString(u.name) + (EncodeOptString(u.email) + (EncodeOptString(u.password)
        + (EncodeOptString(u.signupDate) + ['}']))))
  }

  /** `JSON.parse` of the stored user text: `None` where the real parse would throw. */
  function DecodeUser(s: string): Option<UserValue> {
    if s == "null" then Some(Null)
    else if s != [] && s[0] == '{' then
      match DecodeOptString(s[1..])
      case None => None
      case Some((name, s1)) =>
        match DecodeOptString(s1)
        case None => None
        case Some((email, s2)) =>
          match DecodeOptString(s2)
          case None => None
          case Some((password, s3)) =>
            match DecodeOptString(s3)
            case None => None
            case Some((signupDate, s4)) =>
              if s4 == ['}'] then Some(Obj(UserFields(name, email, password, signupDate))) else None
    else None
  }

  /** Storing a user value and reading it back gives the same value. */
  lemma UserRoundTrip(v: UserValue)
    ensures DecodeUser(EncodeUser(v)) == Some(v)
  {
    match v
    case Null =>
    case Obj(u) =>
      var s4 := ['}'];
      var s3 := EncodeOptString(u.signupDate) + s4;
      var s2 := EncodeOptString(u.password) + s3;
      var s1 := EncodeOptString(u.email) + s2;
      var s := EncodeUser(v);
      assert s[1..] == EncodeOptString(u.name) + s1;
      assert s != "null" by {
        assert s[0] == '{';
      }
      OptStringRoundTrip(u.name, s1);
      OptStringRoundTrip(u.email, s2);
      OptStringRoundTrip(u.password, s3);
      OptStringRoundTrip(u.signupDate, s4);
  }

  /** Distinct user values are stored as distinct texts. */
  lemma UserEncodingInjective(v: UserValue, w: UserValue)
    requires EncodeUser(v) == EncodeUser(w)
    ensures v == w
  {
    UserRoundTrip(v);
    UserRoundTrip(w);
  }

  /** Distinct task lists are stored as distinct texts. */
  lemma TodosEncodingInjective(a: seq<Todo>, b: seq<Todo>)
    requires EncodeTodos(a) == EncodeTodos(b)
    ensures a == b
  {
    TodosRoundTrip(a);
    TodosRoundTrip(b);
  }
}
