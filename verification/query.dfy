/**
 * `key=value` pairs joined with `&`, exactly as the f-strings and
 * `"&".join(...)` of the client build them: no percent-encoding, values are
 * inserted verbatim. `Parse` reads such text back and serves as the partner
 * of `Encode`.
 */
module Query {

  const Amp: char := '&'
  const Eq: char := '='

  lemma Assoc(a: string, b: string, c: string)
    ensures a + (b + c) == (a + b) + c
  {
  }

  /** `sep.join(parts)`. */
  function Join(sep: char, parts: seq<string>): string {
    if |parts| == 0 then ""
    else if |parts| == 1 then parts[0]
    else parts[0] + [sep] + Join(sep, parts[1..])
  }

  /** `s.split(sep)`: always at least one (possibly empty) field. */
  function Split(s: string, sep: char): (r: seq<string>)
    ensures |r| >= 1
  {
    if |s| == 0 then [""]
    else
      var rest := Split(s[1..], sep);
      if s[0] == sep then [""] + rest else [[s[0]] + rest[0]] + rest[1..]
  }

  /** `f"{key}={value}"`. */
  function Field(key: string, value: string): string {
    key + [Eq] + value
  }

  function Fields(pairs: seq<(string, string)>): (fs: seq<string>)
    ensures |fs| == |pairs|
    ensures forall i | 0 <= i < |pairs| :: fs[i] == Field(pairs[i].0, pairs[i].1)
  {
    seq(|pairs|, i requires 0 <= i < |pairs| => Field(pairs[i].0, pairs[i].1))
  }

  /** `"&".join(f"{key}={value}" for key, value in pairs)`. */
  function Encode(pairs: seq<(string, string)>): string {
    Join(Amp, Fields(pairs))
  }

  /** `f.partition("=")` without the separator: the key before the first `=`, the value after it. */
  function SplitField(f: string): (kv: (string, string))
  {
    if |f| == 0 then ("", "")
    else if f[0] == Eq then ("", f[1..])
    else
      var kv' := SplitField(f[1..]);
      ([f[0]] + kv'.0, kv'.1)
  }

  /** Reads `k1=v1&k2=v2...` back into its pairs. */
  function Parse(s: string): (pairs: seq<(string, string)>)
    ensures |pairs| >= 1
  {
    var fs := Split(s, Amp);
    seq(|fs|, i requires 0 <= i < |fs| => SplitField(fs[i]))
  }

  /** A pair that survives `Parse`: no delimiter in the key, no `&` in the value. */
  predicate Plain(kv: (string, string)) {
    Amp !in kv.0 && Eq !in kv.0 && Amp !in kv.1
  }

  lemma {:induction false} JoinSnoc(sep: char, parts: seq<string>, x: string)
    requires |parts| >= 1
    ensures Join(sep, parts + [x]) == Join(sep, parts) + [sep] + x
  {
    if |parts| == 1 {
      assert parts + [x] == [parts[0], x];
    } else {
      assert (parts + [x])[1..] == parts[1..] + [x];
      JoinSnoc(sep, parts[1..], x);
    }
  }

  lemma {:induction false} SplitWithout(a: string, sep: char)
    requires sep !in a
    ensures Split(a, sep) == [a]
  {
    if |a| > 0 {
      SplitWithout(a[1..], sep);
      assert a == [a[0]] + a[1..];
    }
  }

  lemma {:induction false} SplitAtFirst(a: string, sep: char, b: string)
    requires sep !in a
    ensures Split(a + [sep] + b, sep) == [a] + Split(b, sep)
  {
    if |a| == 0 {
      assert a + [sep] + b == [sep] + b;
      assert ([sep] + b)[1..] == b;
    } else {
      assert (a + [sep] + b)[1..] == a[1..] + [sep] + b;
      SplitAtFirst(a[1..], sep, b);
      assert a == [a[0]] + a[1..];
    }
  }

  /** Splitting a join gives back the parts when no part contains the separator. */
  lemma {:induction false} SplitJoin(sep: char, parts: seq<string>)
    requires |parts| >= 1
    requires forall i | 0 <= i < |parts| :: sep !in parts[i]
    ensures Split(Join(sep, parts), sep) == parts
  {
    if |parts| == 1 {
      SplitWithout(parts[0], sep);
    } else {
      SplitJoin(sep, parts[1..]);
      SplitAtFirst(parts[0], sep, Join(sep, parts[1..]));
      assert parts == [parts[0]] + parts[1..];
    }
  }

  lemma {:induction false} SplitFieldOf(key: string, value: string)
    requires Eq !in key
    ensures SplitField(Field(key, value)) == (key, value)
  {
    if |key| == 0 {
      assert Field(key, value) == [Eq] + value;
    } else {
      assert Field(key, value)[1..] == Field(key[1..], value);
      SplitFieldOf(key[1..], value);
      assert key == [key[0]] + key[1..];
    }
  }

  /** Parsing the encoding of plain pairs gives the same pairs, in the same order. */
  lemma ParseEncode(pairs: seq<(string, string)>)
    requires |pairs| >= 1
    requires forall i | 0 <= i < |pairs| :: Plain(pairs[i])
    ensures Parse(Encode(pairs)) == pairs
  {
    var fs := Fields(pairs);
    forall i | 0 <= i < |fs| ensures Amp !in fs[i] {
      assert Plain(pairs[i]);
      assert Amp != Eq;
    }
    SplitJoin(Amp, fs);
    forall i | 0 <= i < |pairs| ensures SplitField(fs[i]) == pairs[i] {
      SplitFieldOf(pairs[i].0, pairs[i].1);
    }
  }

  /** Appending one pair to an encoding appends `&key=value` to the text. */
  lemma EncodeSnoc(pairs: seq<(string, string)>, key: string, value: string)
    requires |pairs| >= 1
    ensures Encode(pairs + [(key, value)]) == Encode(pairs) + "&" + Field(key, value)
  {
    assert Fields(pairs + [(key, value)]) == Fields(pairs) + [Field(key, value)];
    JoinSnoc(Amp, Fields(pairs), Field(key, value));
  }

  /**
   * Values are not percent-encoded: a value holding `&key2=value2` reads back
   * as two pairs, the second one injected by the value.
   */
  lemma UnencodedAmpersandAddsPair(key: string, value: string, key2: string, value2: string)
    requires Plain((key, value)) && Plain((key2, value2))
    ensures Parse(Encode([(key, value + [Amp] + Field(key2, value2))])) == [(key, value), (key2, value2)]
  {
    var text := Encode([(key, value + [Amp] + Field(key2, value2))]);
    assert text == Field(key, value) + [Amp] + Field(key2, value2);
    SplitAtFirst(Field(key, value), Amp, Field(key2, value2));
    SplitWithout(Field(key2, value2), Amp);
    SplitFieldOf(key, value);
    SplitFieldOf(key2, value2);
  }

  /** `&key=value` for each pair, in order: what follows the first pair of an encoding. */
  function Trail(pairs: seq<(string, string)>): string {
    if |pairs| == 0 then "" else "&" + Field(pairs[0].0, pairs[0].1) + Trail(pairs[1..])
  }

  /** Encoding a concatenation extends the first encoding by the trail of the rest. */
  lemma {:induction false} EncodeConcat(a: seq<(string, string)>, b: seq<(string, string)>)
    requires |a| >= 1
    ensures Encode(a + b) == Encode(a) + Trail(b)
    decreases |b|
  {
    if |b| > 0 {
      EncodeSnoc(a, b[0].0, b[0].1);
      assert a + b == (a + [b[0]]) + b[1..];
      EncodeConcat(a + [b[0]], b[1..]);
    } else {
      assert a + b == a;
    }
  }

  lemma {:induction false} TrailConcat(a: seq<(string, string)>, b: seq<(string, string)>)
    ensures Trail(a + b) == Trail(a) + Trail(b)
  {
    if |a| == 0 {
      assert a + b == b;
    } else {
      assert (a + b)[1..] == a[1..] + b;
      TrailConcat(a[1..], b);
    }
  }

  /** Peels the first pair off an encoding, as `key=` followed by the value. */
  lemma EncodeStep(key: string, value: string, rest: seq<(string, string)>)
    ensures Encode([(key, value)] + rest) == key + "=" + value + Trail(rest)
  {
    EncodeConcat([(key, value)], rest);
    assert Fields([(key, value)]) == [Field(key, value)];
  }

  /** Peels the next pair off a trail, as `&key=` followed by the value. */
  lemma TrailStep(prefix: string, key: string, value: string, rest: seq<(string, string)>)
    ensures prefix + Trail([(key, value)] + rest) == prefix + ("&" + key + "=") + value + Trail(rest)
  {
    assert ([(key, value)] + rest)[1..] == rest;
  }

  /** The trail of four pairs, unrolled. */
  lemma TrailFour(p1: (string, string), p2: (string, string), p3: (string, string), p4: (string, string))
    ensures Trail([p1, p2, p3, p4])
            == "&" + Field(p1.0, p1.1) + ("&" + Field(p2.0, p2.1) + ("&" + Field(p3.0, p3.1) + ("&" + Field(p4.0, p4.1) + "")))
  {
    assert [p4][1..] == [];
    assert Trail([p4]) == "&" + Field(p4.0, p4.1) + "";
    assert [p3, p4][1..] == [p4];
    assert Trail([p3, p4]) == "&" + Field(p3.0, p3.1) + Trail([p4]);
    assert [p2, p3, p4][1..] == [p3, p4];
    assert Trail([p2, p3, p4]) == "&" + Field(p2.0, p2.1) + Trail([p3, p4]);
    assert [p1, p2, p3, p4][1..] == [p2, p3, p4];
  }

  // The `&key=` separators that the form payloads write as one literal.

  lemma ClientIdSeparator()
    ensures "&" + "client_id" + "=" == "&client_id="
  {
  }

  lemma ClientSecretSeparator()
    ensures "&" + "client_secret" + "=" == "&client_secret="
  {
  }
}
