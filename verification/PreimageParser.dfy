/** Reading the five fields back out of a hash preimage. */
module PreimageParser {

  import opened Wrappers
  import opened LogEntries
  import opened HashService

  datatype Fields = Fields(previousHash: string, actor: string, action: string, payload: string, timestamp: string)

  function FieldsOf(e: Env, data: HashData): Fields {
    Fields(data.previousHash, data.actor, data.action, PayloadText(e, data.payload), TimestampText(e, data))
  }

  /** The text before and after the first bar. */
  function SplitFirst(s: string): (r: Option<(string, string)>)
    ensures r.None? <==> BarFree(s)
    ensures r.Some? ==> BarFree(r.value.0) && s == r.value.0 + "|" + r.value.1
  {
    if s == "" then None
    else if s[0] == '|' then Some(("", s[1..]))
    else
      match SplitFirst(s[1..])
      case None => None
      case Some((before, after)) => Some(([s[0]] + before, after))
  }

  /** The text before and after the last bar. */
  function SplitLast(s: string): (r: Option<(string, string)>)
    ensures r.None? <==> BarFree(s)
    ensures r.Some? ==> BarFree(r.value.1) && s == r.value.0 + "|" + r.value.1
  {
    if s == "" then None
    else
      var last := |s| - 1;
      if s[last] == '|' then Some((s[..last], ""))
      else
        match SplitLast(s[..last])
        case None => None
        case Some((before, after)) => Some((before, after + [s[last]]))
  }

  /** Split at the first three bars and at the last one. */
  function Parse(s: string): Option<Fields> {
    match SplitFirst(s)
    case None => None
    case Some((previousHash, rest)) =>
      match SplitFirst(rest)
      case None => None
      case Some((actor, rest')) =>
        match SplitFirst(rest')
        case None => None
        case Some((action, rest'')) =>
          match SplitLast(rest'')
          case None => None
          case Some((payload, timestamp)) => Some(Fields(previousHash, actor, action, payload, timestamp))
  }

  /** A bar-free prefix determines where the first bar is. */
  lemma FirstBarIsUnique(a: string, b: string, c: string, d: string)
    requires BarFree(a) && BarFree(c)
    requires a + "|" + b == c + "|" + d
    ensures a == c && b == d
  {
    var s := a + "|" + b;
    assert s[|a|] == '|' && forall i :: 0 <= i < |a| ==> s[i] == a[i] != '|';
    assert s == c + "|" + d && s[|c|] == '|' && forall i :: 0 <= i < |c| ==> s[i] == c[i] != '|';
    assert |a| == |c|;
    assert a == s[..|a|] == c;
    assert b == s[|a| + 1..] == d;
  }

  /** A bar-free suffix determines where the last bar is. */
  lemma LastBarIsUnique(a: string, b: string, c: string, d: string)
    requires BarFree(b) && BarFree(d)
    requires a + "|" + b == c + "|" + d
    ensures a == c && b == d
  {
    var s := a + "|" + b;
    assert s[|a|] == '|' && forall i :: |a| < i < |s| ==> s[i] == b[i - |a| - 1] != '|';
    assert s == c + "|" + d && s[|c|] == '|' && forall i :: |c| < i < |s| ==> s[i] == d[i - |c| - 1] != '|';
    assert |a| == |c|;
    assert a == s[..|a|] == c;
    assert b == s[|a| + 1..] == d;
  }

  lemma SplitFirstInverts(before: string, after: string)
    requires BarFree(before)
    ensures SplitFirst(before + "|" + after) == Some((before, after))
  {
    var s := before + "|" + after;
    assert s[|before|] == '|';
    FirstBarIsUnique(SplitFirst(s).value.0, SplitFirst(s).value.1, before, after);
  }

  lemma SplitLastInverts(before: string, after: string)
    requires BarFree(after)
    ensures SplitLast(before + "|" + after) == Some((before, after))
  {
    var s := before + "|" + after;
    assert s[|before|] == '|';
    LastBarIsUnique(SplitLast(s).value.0, SplitLast(s).value.1, before, after);
  }

  /** Text in front of a string that has a bar does not move its last bar. */
  lemma SplitLastSkips(front: string, s: string)
    requires SplitLast(s).Some?
    ensures SplitLast(front + "|" + s).Some?
    ensures SplitLast(front + "|" + s).value.1 == SplitLast(s).value.1
  {
    var (before, after) := SplitLast(s).value;
    assert front + "|" + s == (front + "|" + before) + "|" + after;
    SplitLastInverts(front + "|" + before, after);
  }

  lemma JoinFive(a: string, b: string, c: string, d: string, x: string)
    ensures JoinBars([a, b, c, d, x]) == a + "|" + (b + "|" + (c + "|" + (d + "|" + x)))
  {
    assert [a, b, c, d, x][1..] == [b, c, d, x] && [b, c, d, x][1..] == [c, d, x];
    assert [c, d, x][1..] == [d, x] && [d, x][1..] == [x];
    assert JoinBars([d, x]) == d + "|" + x;
    assert JoinBars([c, d, x]) == c + "|" + JoinBars([d, x]);
    assert JoinBars([b, c, d, x]) == b + "|" + JoinBars([c, d, x]);
  }

  /** The preimage, with its bars written out. */
  lemma PreimageShape(e: Env, data: HashData)
    ensures var f := FieldsOf(e, data);
            Preimage(e, data) ==
            f.previousHash + "|" + (f.actor + "|" + (f.action + "|" + (f.payload + "|" + f.timestamp)))
  {
    var f := FieldsOf(e, data);
    JoinFive(f.previousHash, f.actor, f.action, f.payload, f.timestamp);
  }

  /** What an entry is hashed over when it comes after `previousHash`. */
  function TextOf(e: Env, entry: LogEntry, previousHash: string): string {
    previousHash + "|" + (entry.actor + "|" + (entry.action + "|" + (
      (if entry.payload.None? then "null" else e.stringify(entry.payload.value)) + "|" +
      (if entry.createdAt.DateValue? then e.iso(entry.createdAt.ms)
       else if entry.createdAt.text == "" then "undefined"
       else entry.createdAt.text))))
  }

  lemma HashOfText(e: Env, entry: LogEntry, previousHash: string)
    ensures GenerateHash(e, DataOf(entry, previousHash)) == e.sha256(TextOf(e, entry, previousHash))
  {
    PreimageShape(e, DataOf(entry, previousHash));
  }

  /** The hashed text of a log entry, field by field. */
  lemma EntryText(e: Env, entry: LogEntry, previousHash: string)
    ensures GenerateHash(e, DataOf(entry, previousHash)) ==
            e.sha256(previousHash + "|" + (entry.actor + "|" + (entry.action + "|" +
              ((match entry.payload case None => "null" case Some(json) => e.stringify(json)) + "|" +
               (match entry.createdAt
                case DateValue(ms) => e.iso(ms)
                case IsoText(text) => if text == "" then "undefined" else text)))))
  {
    PreimageShape(e, DataOf(entry, previousHash));
  }

  /** Whatever the other fields, a bar-free previous hash can be read back. */
  lemma PreviousHashRecoverable(e: Env, data: HashData)
    requires BarFree(data.previousHash)
    ensures var s := Preimage(e, data);
            SplitFirst(s).Some? && SplitFirst(s).value.0 == data.previousHash
  {
    PreimageShape(e, data);
    var f := FieldsOf(e, data);
    SplitFirstInverts(f.previousHash, f.actor + "|" + (f.action + "|" + (f.payload + "|" + f.timestamp)));
  }

  lemma PreimageDeterminesPrevious(e: Env, a: HashData, b: HashData)
    requires BarFree(a.previousHash) && BarFree(b.previousHash) && Preimage(e, a) == Preimage(e, b)
    ensures a.previousHash == b.previousHash
  {
    PreviousHashRecoverable(e, a);
    PreviousHashRecoverable(e, b);
  }

  /** Whatever the other fields, a bar-free timestamp can be read back. */
  lemma TimestampRecoverable(e: Env, data: HashData)
    requires BarFree(TimestampText(e, data))
    ensures var s := Preimage(e, data);
            SplitLast(s).Some? && SplitLast(s).value.1 == TimestampText(e, data)
  {
    PreimageShape(e, data);
    var f := FieldsOf(e, data);
    var afterAction := f.payload + "|" + f.timestamp;
    var afterActor := f.action + "|" + afterAction;
    SplitLastInverts(f.payload, f.timestamp);
    SplitLastSkips(f.action, afterAction);
    SplitLastSkips(f.actor, afterActor);
    SplitLastSkips(f.previousHash, f.actor + "|" + afterActor);
  }

  /** The parser inverts the join exactly when actor and action have no bar; the payload may have any. */
  lemma PreimageRoundTrip(e: Env, data: HashData)
    requires BarFree(data.previousHash) && BarFree(TimestampText(e, data))
    ensures Parse(Preimage(e, data)) == Some(FieldsOf(e, data)) <==> BarFree(data.actor) && BarFree(data.action)
  {
    PreimageShape(e, data);
    if BarFree(data.actor) && BarFree(data.action) {
      var f := FieldsOf(e, data);
      var afterAction := f.payload + "|" + f.timestamp;
      var afterActor := f.action + "|" + afterAction;
      SplitFirstInverts(f.previousHash, f.actor + "|" + afterActor);
      SplitFirstInverts(f.actor, afterActor);
      SplitFirstInverts(f.action, afterAction);
      SplitLastInverts(f.payload, f.timestamp);
    }
  }

  lemma SameMiddle(front: string, a: string, b: string, back: string)
    requires front + a + back == front + b + back
    ensures a == b
  {
    var s := front + a + back;
    assert |a| == |b|;
    assert a == s[|front|..|front| + |a|];
    assert b == s[|front|..|front| + |b|];
  }

  /** The preimage as what surrounds actor and action, and those two. */
  lemma ActorAndAction(e: Env, data: HashData)
    ensures Preimage(e, data) == (data.previousHash + "|") + (data.actor + "|" + data.action)
                                 + ("|" + PayloadText(e, data.payload) + "|" + TimestampText(e, data))
  {
    PreimageShape(e, data);
    var payload, last := PayloadText(e, data.payload), TimestampText(e, data);
    assert data.previousHash + "|" + (data.actor + "|" + (data.action + "|" + (payload + "|" + last))) ==
           (data.previousHash + "|") + (data.actor + "|" + data.action) + ("|" + payload + "|" + last);
  }

  /** Records that differ in actor and action only have one preimage exactly if the two join to one text. */
  lemma SameWhoAndWhat(e: Env, data: HashData, actor: string, action: string)
    ensures Preimage(e, data.(actor := actor, action := action)) == Preimage(e, data) <==>
            actor + "|" + action == data.actor + "|" + data.action
  {
    var other := data.(actor := actor, action := action);
    ActorAndAction(e, data);
    ActorAndAction(e, other);
    assert TimestampText(e, other) == TimestampText(e, data);
    if Preimage(e, other) == Preimage(e, data) {
      SameMiddle(data.previousHash + "|", actor + "|" + action, data.actor + "|" + data.action,
                 "|" + PayloadText(e, data.payload) + "|" + TimestampText(e, data));
    }
  }

  /** Two parts with one bar between them, cut at a bar. */
  lemma OnlyBar(a: string, b: string, c: string, d: string)
    requires BarFree(a) && BarFree(b) && a + "|" + b == c + "|" + d
    ensures a == c && b == d
  {
    assert (c + "|" + d)[|c|] == '|';
    assert |a| == |c|;
    assert c == (c + "|" + d)[..|c|] == (a + "|" + b)[..|a|] == a;
    FirstBarIsUnique(a, b, c, d);
  }

  /** A bar in the actor moves to the action, or one in the action to the actor. */
  lemma MovedBar(actor: string, action: string) returns (otherActor: string, otherAction: string)
    requires !(BarFree(actor) && BarFree(action))
    ensures (otherActor, otherAction) != (actor, action)
    ensures otherActor + "|" + otherAction == actor + "|" + action
  {
    if !BarFree(actor) {
      var (before, after) := SplitFirst(actor).value;
      otherActor, otherAction := before, after + "|" + action;
      assert |before| < |actor|;
    } else {
      var (before, after) := SplitFirst(action).value;
      otherActor, otherAction := actor + "|" + before, after;
      assert |after| < |action|;
    }
  }

  /** Another actor and action give a record the same preimage exactly when it has a bar in one of them. */
  lemma BarsMakePreimagesAmbiguous(e: Env, data: HashData)
    ensures (exists actor: string, action: string ::
               && (actor, action) != (data.actor, data.action)
               && Preimage(e, data.(actor := actor, action := action)) == Preimage(e, data))
            <==> !(BarFree(data.actor) && BarFree(data.action))
  {
    hide Preimage;
    if BarFree(data.actor) && BarFree(data.action) {
      forall actor: string, action: string
        | Preimage(e, data.(actor := actor, action := action)) == Preimage(e, data)
        ensures (actor, action) == (data.actor, data.action)
      {
        SameWhoAndWhat(e, data, actor, action);
        OnlyBar(data.actor, data.action, actor, action);
      }
    } else {
      var actor, action := MovedBar(data.actor, data.action);
      SameWhoAndWhat(e, data, actor, action);
    }
  }

  /** What a reader of the log takes a record to say, apart from its id and stored hashes. */
  datatype Content = Content(actor: string, action: string, payload: Option<Json>, createdAt: string)

  function ContentOf(e: Env, data: HashData): Content {
    Content(data.actor, data.action, data.payload, TimestampText(e, data))
  }

  /** JSON.stringify tells values apart, and prints the value null as the word used for a missing payload. */
  ghost predicate FaithfulStringify(e: Env) {
    && (forall a, b :: e.stringify(a) == e.stringify(b) ==> a == b)
    && e.stringify(JNull) == "null"
  }

  /** Any injective printer will do, if it prints the value null so. */
  lemma InjectivePrinterIsFaithful(e: Env, printer: Json -> string)
    requires (forall a, b :: printer(a) == printer(b) ==> a == b) && printer(JNull) == "null"
    ensures FaithfulStringify(e.(stringify := printer))
  {
  }

  /** A record whose fields can be read back from its preimage. */
  ghost predicate Unambiguous(e: Env, data: HashData) {
    && BarFree(data.previousHash) && BarFree(data.actor) && BarFree(data.action)
    && BarFree(TimestampText(e, data))
    && data.payload != Some(JNull)
  }

  /** Equal preimages mean equal records, when neither record has a bar in its actor or action. */
  lemma PreimageDeterminesContent(e: Env, a: HashData, b: HashData)
    requires FaithfulStringify(e)
    requires Unambiguous(e, a) && Unambiguous(e, b)
    requires Preimage(e, a) == Preimage(e, b)
    ensures a.previousHash == b.previousHash && ContentOf(e, a) == ContentOf(e, b)
  {
    PreimageRoundTrip(e, a);
    PreimageRoundTrip(e, b);
    assert FieldsOf(e, a) == FieldsOf(e, b);
    SamePayloadText(e, a.payload, b.payload);
  }

  lemma SamePayloadText(e: Env, a: Option<Json>, b: Option<Json>)
    requires FaithfulStringify(e) && a != Some(JNull) && b != Some(JNull)
    requires PayloadText(e, a) == PayloadText(e, b)
    ensures a == b
  {
    assert forall x :: e.stringify(x) == e.stringify(JNull) ==> x == JNull;
  }
}
