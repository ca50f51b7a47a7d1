/** The keys under which the script keeps translations: hashes of the segment, its text and the translator. */
module MemoryKeys {
  import opened Text
  import opened SyncDecision

  /** Trims, splits at white space, and joins with single spaces. */
  function NormalizeText(s: string): string {
    Join(Words(Trim(s)), " ")
  }

  /** Two texts are hashed alike exactly when they have the same words in the same order. */
  lemma SameTextIffSameWords(s: string, t: string)
    ensures NormalizeText(s) == NormalizeText(t) <==> Words(s) == Words(t)
  {
    WordsOfTrim(s);
    WordsOfTrim(t);
    NormalizeIsWords(s);
    NormalizeIsWords(t);
  }

  function CacheNamespace(provider: string, model: string): string {
    "wf=1|engine=pi|provider=" + provider + "|model=" + model
  }

  function CacheKeyText(provider: string, model: string, locale: string, segmentId: string, textHash: string): string {
    CacheNamespace(provider, model) + "|" + SOURCE_LOCALE + "|" + locale + "|" + segmentId + "|" + textHash
  }

  /** The environment of the script over a hash function. */
  function EnvWith(sha: string -> string, locale: string, allowTranslate: bool, provider: string, model: string,
                   budget: real, le: (string, string) -> bool): Env {
    Env(locale, allowTranslate, provider, model, budget,
        text => sha(NormalizeText(text)),
        (segmentId, textHash) => sha(CacheKeyText(provider, model, locale, segmentId, textHash)),
        le)
  }

  /** Hashes are 64 characters long. */
  ghost predicate IsHash(sha: string -> string) {
    forall x {:trigger sha(x)} :: |sha(x)| == 64
  }

  /** What the script hashes into the memory key of the string under `key`. */
  function KeyText(sha: string -> string, provider: string, model: string, locale: string,
                   flat: map<string, string>, key: string): string
    requires key in flat
  {
    CacheKeyText(provider, model, locale, key, sha(NormalizeText(flat[key])))
  }

  /** The hash does not confuse any two of the texts hashed for these strings. */
  ghost predicate NoCollision(sha: string -> string, provider: string, model: string, locale: string,
                              flat: map<string, string>) {
    forall k, l :: k in flat && l in flat
                   && sha(KeyText(sha, provider, model, locale, flat, k)) == sha(KeyText(sha, provider, model, locale, flat, l))
                   ==> KeyText(sha, provider, model, locale, flat, k) == KeyText(sha, provider, model, locale, flat, l)
  }

  predicate HasBar(s: string) {
    '|' in s
  }

  lemma Regroup(x: string, y: string, z: string)
    ensures x + "|" + y + "|" + z == x + "|" + (y + "|" + z)
  {
  }

  /** The fields of a key text, one after the other. */
  lemma KeyTextFields(p: string, m: string, l: string, id: string, h: string)
    ensures CacheKeyText(p, m, l, id, h) == CacheNamespace(p, m) + "|" + ("en" + "|" + (l + "|" + (id + "|" + h)))
  {
    var n := CacheNamespace(p, m);
    Regroup(n + "|" + "en" + "|" + l, id, h);
    Regroup(n + "|" + "en", l, id + "|" + h);
    Regroup(n, "en", l + "|" + (id + "|" + h));
  }

  lemma NamespaceFields(p: string, m: string, rest: string)
    ensures CacheNamespace(p, m) + "|" + rest
         == "wf=1|engine=pi|provider=" + (p + "|" + ("model=" + (m + "|" + rest)))
  {
    var head := "wf=1|engine=pi|provider=";
    assert CacheNamespace(p, m) == head + (p + "|model=" + m);
    assert p + "|model=" + m + "|" + rest == p + "|" + ("model=" + (m + "|" + rest));
  }

  lemma LocaleFields(l: string, t: string, l': string, t': string)
    requires !HasBar(l) && !HasBar(l')
    ensures "en" + "|" + (l + "|" + t) == "en" + "|" + (l' + "|" + t') <==> l == l' && t == t'
  {
    SameAfter("en" + "|", l + "|" + t, l' + "|" + t');
    FirstField(l, t, l', t', '|');
  }

  lemma TranslatorFields(p: string, m: string, t: string, p': string, m': string, t': string)
    requires !HasBar(p) && !HasBar(m) && !HasBar(p') && !HasBar(m')
    ensures CacheNamespace(p, m) + "|" + t == CacheNamespace(p', m') + "|" + t' <==> p == p' && m == m' && t == t'
  {
    var a, b := "model=" + (m + "|" + t), "model=" + (m' + "|" + t');
    NamespaceFields(p, m, t);
    NamespaceFields(p', m', t');
    SameAfter("wf=1|engine=pi|provider=", p + "|" + a, p' + "|" + b);
    FirstField(p, a, p', b, '|');
    SameAfter("model=", m + "|" + t, m' + "|" + t');
    FirstField(m, t, m', t', '|');
  }

  /**
   Key texts tell providers, models and locales apart, as well as strings and their hashes: they agree
   exactly if all five fields do.  Provider, model and locale hold no bar, and hashes are equally long.
   */
  lemma KeyTextsTellFieldsApart(p: string, m: string, l: string, id: string, h: string,
                                p': string, m': string, l': string, id': string, h': string)
    requires !HasBar(p) && !HasBar(m) && !HasBar(l) && !HasBar(p') && !HasBar(m') && !HasBar(l') && |h| == |h'|
    ensures CacheKeyText(p, m, l, id, h) == CacheKeyText(p', m', l', id', h')
            <==> p == p' && m == m' && l == l' && id == id' && h == h'
  {
    var t, t' := id + "|" + h, id' + "|" + h';
    KeyTextFields(p, m, l, id, h);
    KeyTextFields(p', m', l', id', h');
    TranslatorFields(p, m, "en" + "|" + (l + "|" + t), p', m', "en" + "|" + (l' + "|" + t'));
    LocaleFields(l, t, l', t');
    LastField(id, h, id', h', '|');
  }

  const MODEL_FIELD := "|model="

  predicate StandsAt(s: string, part: string, i: nat) {
    i + |part| <= |s| && s[i..i + |part|] == part
  }

  /** Provider and model as they stand in the key texts. */
  function TranslatorText(p: string, m: string): string {
    p + MODEL_FIELD + m
  }

  ghost predicate IsAmbiguous(p: string, m: string) {
    exists p', m' :: (p' != p || m' != m) && CacheNamespace(p', m') == CacheNamespace(p, m)
  }

  lemma SameNamespace(p: string, m: string, p': string, m': string)
    ensures CacheNamespace(p, m) == CacheNamespace(p', m') <==> TranslatorText(p, m) == TranslatorText(p', m')
  {
    var head := "wf=1|engine=pi|provider=";
    assert CacheNamespace(p, m) == head + TranslatorText(p, m);
    assert CacheNamespace(p', m') == head + TranslatorText(p', m');
    SameAfter(head, TranslatorText(p, m), TranslatorText(p', m'));
  }

  /** A translator shares its namespace with another exactly when "|model=" stands in a second place of its text. */
  lemma AmbiguousIffFieldTwice(p: string, m: string)
    ensures IsAmbiguous(p, m) <==> exists i: nat :: i != |p| && StandsAt(TranslatorText(p, m), MODEL_FIELD, i)
  {
    var x := TranslatorText(p, m);
    if p', m' :| (p' != p || m' != m) && CacheNamespace(p', m') == CacheNamespace(p, m) {
      SameNamespace(p', m', p, m);
      assert x[|p'|..|p'| + 7] == MODEL_FIELD && x[..|p'|] == p' && x[|p'| + 7..] == m';
      assert x[..|p|] == p && x[|p| + 7..] == m;
      assert StandsAt(x, MODEL_FIELD, |p'|);
    }
    if i: nat :| i != |p| && StandsAt(x, MODEL_FIELD, i) {
      var p', m' := x[..i], x[i + 7..];
      assert x == p' + x[i..i + 7] + m';
      SameNamespace(p', m', p, m);
      assert |p'| != |p|;
    }
  }

  /** A bar in a provider can pass for the next field, so that two translators share their keys. */
  lemma BarConfuses(l: string, id: string, h: string)
    ensures CacheKeyText("a|model=b", "c", l, id, h) == CacheKeyText("a", "b|model=c", l, id, h)
  {
    assert CacheNamespace("a|model=b", "c") == CacheNamespace("a", "b|model=c");
  }

  /** Different strings have different key texts, whatever their hashes. */
  lemma KeyTextsDiffer(sha: string -> string, provider: string, model: string, locale: string,
                       flat: map<string, string>, k: string, l: string)
    requires IsHash(sha) && k in flat && l in flat
    requires KeyText(sha, provider, model, locale, flat, k) == KeyText(sha, provider, model, locale, flat, l)
    ensures k == l
  {
    var p := CacheNamespace(provider, model) + "|" + SOURCE_LOCALE + "|" + locale + "|";
    var h, g := sha(NormalizeText(flat[k])), sha(NormalizeText(flat[l]));
    assert KeyText(sha, provider, model, locale, flat, k) == p + k + "|" + h;
    assert KeyText(sha, provider, model, locale, flat, l) == p + l + "|" + g;
    assert p + k + "|" + h == p + (k + "|" + h) && p + l + "|" + g == p + (l + "|" + g);
    SameAfter(p, k + "|" + h, l + "|" + g);
    LastField(k, h, l, g, '|');
  }

  /** The script's memory keys are distinct exactly when its hash confuses no two of the texts it hashes. */
  lemma HashedKeysDistinct(sha: string -> string, locale: string, allowTranslate: bool, provider: string,
                           model: string, budget: real, le: (string, string) -> bool, flat: map<string, string>)
    requires IsHash(sha)
    ensures DistinctKeys(EnvWith(sha, locale, allowTranslate, provider, model, budget, le), flat)
            <==> NoCollision(sha, provider, model, locale, flat)
  {
    var env := EnvWith(sha, locale, allowTranslate, provider, model, budget, le);
    forall k | k in flat
      ensures SegmentKey(env, flat, k) == sha(KeyText(sha, provider, model, locale, flat, k))
      ensures SegmentKey(env, flat, k) != ""
    {
      assert |sha(KeyText(sha, provider, model, locale, flat, k))| == 64;
    }
    if NoCollision(sha, provider, model, locale, flat) {
      forall k, l | k in flat && l in flat && SegmentKey(env, flat, k) == SegmentKey(env, flat, l)
        ensures k == l
      {
        KeyTextsDiffer(sha, provider, model, locale, flat, k, l);
      }
    }
  }

  /** 64 copies of the character that stands 66 places before the end. */
  function CopyHash(x: string): (h: string)
    ensures |h| == 64
  {
    seq(64, _ => if |x| >= 66 then x[|x| - 66] else '0')
  }

  lemma CopyHashOfKey(provider: string, model: string, locale: string, flat: map<string, string>, k: string)
    requires k in flat && |k| == 1
    ensures CopyHash(KeyText(CopyHash, provider, model, locale, flat, k))[0] == k[0]
  {
    var head := CacheNamespace(provider, model) + "|" + SOURCE_LOCALE + "|" + locale + "|";
    var tail := "|" + CopyHash(NormalizeText(flat[k]));
    var x := KeyText(CopyHash, provider, model, locale, flat, k);
    assert |tail| == 65;
    assert x == head + k + tail;
    assert x[|x| - 66] == k[0];
  }

  /** Some hash confuses no two of the texts: for keys of one character, one that copies that character. */
  lemma SomeHashHasNoCollision(provider: string, model: string, locale: string, flat: map<string, string>)
    requires forall k :: k in flat ==> |k| == 1
    ensures IsHash(CopyHash) && NoCollision(CopyHash, provider, model, locale, flat)
  {
    forall k, l | k in flat && l in flat && CopyHash(KeyText(CopyHash, provider, model, locale, flat, k))
                                            == CopyHash(KeyText(CopyHash, provider, model, locale, flat, l))
      ensures k == l
    {
      CopyHashOfKey(provider, model, locale, flat, k);
      CopyHashOfKey(provider, model, locale, flat, l);
      assert k == [k[0]] && l == [l[0]];
    }
  }
}
