/** A file's own words: what a statement's key and value say, and which statement of
    a kind comes last. */
module Words {
  import opened Prelude
  import opened Text

  /** The statement gives this key a value: what stands before its first equals sign
      is the key, trimmed and in lower case. */
  predicate SetsKey(e: string, key: string)
  {
    match Cut(e, '=')
    case None => false
    case Some((k, _)) => Lower(Trim(k)) == key
  }

  /** The value the last statement with this key gives it. */
  function LastValue(es: seq<string>, key: string): Option<string>
  {
    if es == [] then None
    else if SetsKey(es[|es| - 1], key) then Some(ValueOf(es[|es| - 1]))
    else LastValue(es[..|es| - 1], key)
  }

  lemma LastValueSnoc(es: seq<string>, e: string, key: string)
    ensures LastValue(es + [e], key) == if SetsKey(e, key) then Some(ValueOf(e)) else LastValue(es, key)
  {
    hide SetsKey;
    assert (es + [e])[..|es|] == es;
  }

  /** A line that starts with a bracket gives no key a value. */
  lemma BracketSetsNoKey(e: string, key: string)
    requires Statement(e) && e[0] == '[' && SetsKey(e, key)
    ensures key != [] && key[0] == '['
  {
    CutParts(e, '=');
    var k := Cut(e, '=').value.0;
    assert k != [] && k[0] == '[';
    BracketStaysFirst(k);
    hide Trim, Cut;
    assert Lower(Trim(k))[0] == LowerChar('[');
  }

  lemma BracketStaysFirst(k: string)
    requires k != [] && k[0] == '['
    ensures Trim(k) != [] && Trim(k)[0] == '['
  {
    var before, after := TrimCuts(k);
    assert !IsSpace(k[0]);
    assert before == [];
    assert k == Trim(k) + after;
  }
}
