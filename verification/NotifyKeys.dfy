/** How the pairing notifier tells subscribers apart. */
module NotifyKeys {
  import opened Text
  import opened Decimals

  /** A message thread as channels give it: absent, a number, or a string that may spell a number. */
  datatype Thread = NoThread | Num(n: int) | Str(s: string)

  datatype Target = Target(to: string, accountId: string, thread: Thread)

  /** The key is the JSON of these three strings; an absent account is the empty string. */
  datatype Key = Key(to: string, accountId: string, thread: string)

  function ThreadKey(t: Thread): string {
    match t
    case NoThread => ""
    case Num(n) => Decimal(n)
    case Str(s) =>
      var normalized := Trim(s);
      if normalized != "" && IsInteger(normalized) then Decimal(IntegerValue(normalized)) else normalized
  }

  /** What a thread means: nothing, a number however it is spelled, or a name. */
  datatype Meaning = Nothing | Number(n: int) | Name(s: string)

  function ThreadMeaning(t: Thread): Meaning {
    match t
    case NoThread => Nothing
    case Num(n) => Number(n)
    case Str(s) =>
      if Trim(s) == "" then Nothing
      else if IsInteger(Trim(s)) then Number(IntegerValue(Trim(s)))
      else Name(Trim(s))
  }

  lemma KeyOfMeaning(t: Thread)
    ensures match ThreadMeaning(t)
            case Nothing => ThreadKey(t) == ""
            case Number(n) => ThreadKey(t) == Decimal(n) && IsInteger(ThreadKey(t)) && IntegerValue(ThreadKey(t)) == n
            case Name(s) => ThreadKey(t) == s && s != "" && !IsInteger(s)
  {
    match ThreadMeaning(t)
    case Number(n) => DecimalRoundTrip(n);
    case _ =>
  }

  /** Two threads have the same key exactly when they mean the same. */
  lemma ThreadKeyIffSameMeaning(a: Thread, b: Thread)
    ensures ThreadKey(a) == ThreadKey(b) <==> ThreadMeaning(a) == ThreadMeaning(b)
  {
    KeyOfMeaning(a);
    KeyOfMeaning(b);
  }

  function TargetKey(t: Target): Key {
    Key(t.to, t.accountId, ThreadKey(t.thread))
  }

  /** Two targets have the same key exactly when address, account and meaning of the thread agree. */
  lemma SameTargetIffSameKey(a: Target, b: Target)
    ensures TargetKey(a) == TargetKey(b) <==>
            a.to == b.to && a.accountId == b.accountId && ThreadMeaning(a.thread) == ThreadMeaning(b.thread)
  {
    ThreadKeyIffSameMeaning(a.thread, b.thread);
  }
}
