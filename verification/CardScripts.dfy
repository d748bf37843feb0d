/**
 services/card_scripts.py by value: answer queues keyed by prompt keyword, some
 of them shared between keywords, the four script builders, and what any
 sequence of prompts can get out of the scripts they build.
 */
module CardScripts {
  import opened Wrappers
  import opened Bytes
  import Text

  const PROMPT_CARD_MENU := "cardedit.prompt"
  const PROMPT_KEY_MENU := "keyedit.prompt"
  const PROMPT_PIN_MENU := "cardedit.change_pin.menu"
  const PROMPT_SLOT := "cardedit.genkeys.storekeytype"
  const PROMPT_REPLACE_KEYS := "cardedit.genkeys.replace_keys"
  const PROMPT_BACKUP_ENC := "cardedit.genkeys.backup_enc"
  const PROMPT_EXPIRY := "keygen.valid"
  const PROMPT_NAME := "keygen.name"
  const PROMPT_EMAIL := "keygen.email"
  const PROMPT_COMMENT := "keygen.comment"
  const PROMPT_USERID_CMD := "keygen.userid.cmd"
  const PROMPT_SAVE := "keyedit.save.okay"
  const PROMPT_USE_PRIMARY := "keyedit.keytocard.use_primary"

  const SECRET_PROMPTS := [
    "passphrase.enter", "passphrase.ask", "passphrase.pin.ask", "passphrase.adminpin.ask", "passphrase.resetcode.ask"]

  const YES: bytes := [121]
  const NO: bytes := [110]

  /** An answer as the builders pass it: text, already encoded, or a secret. */
  datatype Answer = Word(utf8: bytes) | Secret(raw: bytes)

  /** One queued answer; `id` counts the buffers of a script. */
  datatype Item = Item(id: nat, data: bytes, secret: bool)

  function NewItem(id: nat, a: Answer): Item {
    match a case Word(b) => Item(id, b, false) case Secret(b) => Item(id, b, true)
  }

  /** Keywords name queues; several keywords may name the same one. */
  datatype Script = Script(queueOf: map<string, nat>, queues: seq<seq<Item>>, buffers: nat)

  const EMPTY := Script(map[], [], 0)

  predicate WellFormed(s: Script) {
    forall k | k in s.queueOf :: s.queueOf[k] < |s.queues|
  }

  /** `setdefault(keyword, [])`. */
  function WithQueue(s: Script, keyword: string): (r: Script)
    requires WellFormed(s)
    ensures WellFormed(r) && keyword in r.queueOf
  {
    if keyword in s.queueOf then s
    else Script(s.queueOf[keyword := |s.queues|], s.queues + [[]], s.buffers)
  }

  function Items(from: nat, answers: seq<Answer>): (items: seq<Item>)
    ensures |items| == |answers|
  {
    seq(|answers|, i requires 0 <= i < |answers| => NewItem(from + i, answers[i]))
  }

  function Append(s: Script, q: nat, items: seq<Item>): (r: Script)
    requires WellFormed(s) && q < |s.queues|
    ensures WellFormed(r)
  {
    Script(s.queueOf, s.queues[q := s.queues[q] + items], s.buffers + |items|)
  }

  /** `add`. */
  function Add(s: Script, keyword: string, answers: seq<Answer>): (r: Script)
    requires WellFormed(s)
    ensures WellFormed(r) && keyword in r.queueOf
  {
    var t := WithQueue(s, keyword);
    Append(t, t.queueOf[keyword], Items(s.buffers, answers))
  }

  function Alias(s: Script, keywords: seq<string>, q: nat): (r: Script)
    requires WellFormed(s) && q < |s.queues|
    ensures WellFormed(r) && r.queues == s.queues && r.buffers == s.buffers
    decreases |keywords|
  {
    if keywords == [] then s else Alias(s.(queueOf := s.queueOf[keywords[0] := q]), keywords[1..], q)
  }

  /** `share`. */
  function Share(s: Script, keywords: seq<string>, answers: seq<Answer>): (r: Script)
    requires WellFormed(s)
    ensures WellFormed(r)
  {
    if keywords == [] then s
    else
      var t := Add(s, keywords[0], answers);
      Alias(t, keywords[1..], t.queueOf[keywords[0]])
  }

  function QueueOf(s: Script, keyword: string): seq<Item>
    requires WellFormed(s)
  {
    if keyword in s.queueOf then s.queues[s.queueOf[keyword]] else []
  }

  /** `take`: the next answer, and the script without it. */
  function Take(s: Script, keyword: string): (r: (Script, Option<Item>))
    requires WellFormed(s)
    ensures WellFormed(r.0)
  {
    var queue := QueueOf(s, keyword);
    if queue == [] then (s, None)
    else (s.(queues := s.queues[s.queueOf[keyword] := queue[1..]]), Some(queue[0]))
  }

  /** `pending`. */
  function Pending(s: Script): map<string, nat>
    requires WellFormed(s)
  {
    map k | k in s.queueOf && QueueOf(s, k) != [] :: |QueueOf(s, k)|
  }

  // ---------------------------------------------------------------- dialogues

  datatype Exchange = Exchange(keyword: string, item: Item)

  /** What GnuPG is told when it asks these prompts in turn; the first one without an answer ends it. */
  function Dialogue(s: Script, prompts: seq<string>): seq<Exchange>
    requires WellFormed(s)
    decreases |prompts|
  {
    if prompts == [] then []
    else
      var (t, item) := Take(s, prompts[0]);
      if item.None? then [] else [Exchange(prompts[0], item.value)] + Dialogue(t, prompts[1..])
  }

  /** The script after the dialogue. */
  function Rest(s: Script, prompts: seq<string>): (r: Script)
    requires WellFormed(s)
    ensures WellFormed(r)
    decreases |prompts|
  {
    if prompts == [] then s
    else
      var (t, item) := Take(s, prompts[0]);
      if item.None? then s else Rest(t, prompts[1..])
  }

  /** The answers that came out of queue q, in order. */
  function FromQueue(s: Script, xs: seq<Exchange>, q: nat): seq<Item> {
    if xs == [] then []
    else (if xs[0].keyword in s.queueOf && s.queueOf[xs[0].keyword] == q then [xs[0].item] else []) + FromQueue(s, xs[1..], q)
  }

  /** Conservation: what a queue has given out, in order, plus what it still holds, is what it was built with. */
  lemma {:induction false} QueueConserved(s: Script, prompts: seq<string>, q: nat)
    requires WellFormed(s) && q < |s.queues|
    ensures Rest(s, prompts).queueOf == s.queueOf && |Rest(s, prompts).queues| == |s.queues|
    ensures FromQueue(s, Dialogue(s, prompts), q) + Rest(s, prompts).queues[q] == s.queues[q]
    decreases |prompts|
  {
    if prompts != [] {
      var (t, item) := Take(s, prompts[0]);
      if item.Some? {
        QueueConserved(t, prompts[1..], q);
        SameQueues(s, t, Dialogue(t, prompts[1..]), q);
        var xs := Dialogue(s, prompts);
        assert xs[0] == Exchange(prompts[0], item.value) && xs[1..] == Dialogue(t, prompts[1..]);
        if s.queueOf[prompts[0]] == q {
          assert s.queues[q] == [item.value] + t.queues[q];
        }
      }
    }
  }

  /**
   After a conversation `pending` tells, for each keyword, how many of its
   answers were not asked for; none are left exactly if every queue was handed
   out to the end.
   */
  lemma PendingCounts(s: Script, prompts: seq<string>)
    requires WellFormed(s)
    ensures forall k | k in s.queueOf ::
              var left := |s.queues[s.queueOf[k]]| - |FromQueue(s, Dialogue(s, prompts), s.queueOf[k])|;
              0 <= left && (if left == 0 then k !in Pending(Rest(s, prompts))
                            else k in Pending(Rest(s, prompts)) && Pending(Rest(s, prompts))[k] == left)
    ensures Pending(Rest(s, prompts)) == map[]
       <==> forall k | k in s.queueOf :: FromQueue(s, Dialogue(s, prompts), s.queueOf[k]) == s.queues[s.queueOf[k]]
  {
    var rest := Rest(s, prompts);
    forall k | k in s.queueOf
      ensures rest.queueOf == s.queueOf && s.queueOf[k] < |rest.queues|
      ensures FromQueue(s, Dialogue(s, prompts), s.queueOf[k]) + QueueOf(rest, k) == s.queues[s.queueOf[k]]
    {
      QueueConserved(s, prompts, s.queueOf[k]);
    }
    RestNames(s, prompts);
  }

  lemma {:induction false} RestNames(s: Script, prompts: seq<string>)
    requires WellFormed(s)
    ensures Rest(s, prompts).queueOf == s.queueOf
    decreases |prompts|
  {
    if prompts != [] {
      RestNames(Take(s, prompts[0]).0, prompts[1..]);
    }
  }

  lemma {:induction false} SameQueues(s: Script, t: Script, xs: seq<Exchange>, q: nat)
    requires s.queueOf == t.queueOf
    ensures FromQueue(s, xs, q) == FromQueue(t, xs, q)
    decreases |xs|
  {
    if xs != [] {
      SameQueues(s, t, xs[1..], q);
    }
  }

  // ---------------------------------------------------------------- the discipline the builders keep

  predicate IsSecretPrompt(keyword: string) { keyword in SECRET_PROMPTS }

  /** Only secret prompts share queues. */
  ghost predicate Separate(s: Script) {
    forall k, l | k in s.queueOf && l in s.queueOf && k != l && s.queueOf[k] == s.queueOf[l] ::
      IsSecretPrompt(k) && IsSecretPrompt(l)
  }

  /** Other prompts have no secrets in their queues. */
  ghost predicate Confined(s: Script)
    requires WellFormed(s)
  {
    forall k | k in s.queueOf && !IsSecretPrompt(k) :: NoSecrets(s.queues[s.queueOf[k]])
  }

  /** Secrets only behind secret prompts, queues shared only among those, and "y" to replace only if allowed. */
  ghost predicate Disciplined(s: Script, mayReplace: bool) {
    && WellFormed(s) && Separate(s) && Confined(s)
    && (mayReplace || NoYes(QueueOf(s, PROMPT_REPLACE_KEYS)))
  }

  predicate NoSecrets(items: seq<Item>) { forall i | 0 <= i < |items| :: !items[i].secret }

  predicate NoYes(items: seq<Item>) { forall i | 0 <= i < |items| :: items[i].data != YES }

  predicate AllWords(answers: seq<Answer>) { forall i | 0 <= i < |answers| :: answers[i].Word? }

  predicate NoYesWords(answers: seq<Answer>) {
    forall i | 0 <= i < |answers| && answers[i].Word? :: answers[i].utf8 != YES
  }

  lemma WithQueueKeeps(s: Script, keyword: string, mayReplace: bool)
    requires Disciplined(s, mayReplace)
    ensures Disciplined(WithQueue(s, keyword), mayReplace)
  {
  }

  lemma AppendKeeps(s: Script, keyword: string, items: seq<Item>, mayReplace: bool)
    requires Disciplined(s, mayReplace) && keyword in s.queueOf && !IsSecretPrompt(keyword) && NoSecrets(items)
    requires mayReplace || keyword != PROMPT_REPLACE_KEYS || NoYes(items)
    ensures Disciplined(Append(s, s.queueOf[keyword], items), mayReplace)
  {
    var q := s.queueOf[keyword];
    var r := Append(s, q, items);
    forall k | k in r.queueOf && !IsSecretPrompt(k)
      ensures NoSecrets(r.queues[r.queueOf[k]])
    {
      assert k != keyword ==> r.queueOf[k] != q;
    }
    assert PROMPT_REPLACE_KEYS in s.queueOf && PROMPT_REPLACE_KEYS != keyword ==> s.queueOf[PROMPT_REPLACE_KEYS] != q;
  }

  /** Adding plain words to a menu prompt keeps the discipline. */
  lemma AddKeeps(s: Script, keyword: string, answers: seq<Answer>, mayReplace: bool)
    requires Disciplined(s, mayReplace) && AllWords(answers) && !IsSecretPrompt(keyword)
    requires mayReplace || keyword != PROMPT_REPLACE_KEYS || NoYesWords(answers)
    ensures Disciplined(Add(s, keyword, answers), mayReplace)
    ensures forall k | k in Add(s, keyword, answers).queueOf :: k in s.queueOf || k == keyword
  {
    WithQueueKeeps(s, keyword, mayReplace);
    AppendKeeps(WithQueue(s, keyword), keyword, Items(s.buffers, answers), mayReplace);
  }

  lemma SecretPromptsStartWithP(k: string)
    ensures IsSecretPrompt(k) ==> k != [] && k[0] == 'p'
    ensures k != [] && k[0] != 'p' ==> !IsSecretPrompt(k)
  {
  }

  lemma {:induction false} AliasMaps(s: Script, keywords: seq<string>, q: nat)
    requires WellFormed(s) && q < |s.queues|
    ensures forall k :: k in Alias(s, keywords, q).queueOf <==> k in s.queueOf || k in keywords
    ensures forall k | k in Alias(s, keywords, q).queueOf ::
              Alias(s, keywords, q).queueOf[k] == if k in keywords then q else s.queueOf[k]
    decreases |keywords|
  {
    if keywords != [] {
      AliasMaps(s.(queueOf := s.queueOf[keywords[0] := q]), keywords[1..], q);
      assert forall k :: k in keywords <==> k == keywords[0] || k in keywords[1..];
    }
  }

  /** Queueing the secrets last keeps the discipline, and gives all secret prompts the one queue of secrets. */
  lemma ShareKeeps(s: Script, answers: seq<Answer>, mayReplace: bool) returns (q: nat)
    requires Disciplined(s, mayReplace) && forall k | k in s.queueOf :: !IsSecretPrompt(k)
    ensures var r := Share(s, SECRET_PROMPTS, answers);
            && Disciplined(r, mayReplace) && q < |r.queues|
            && (forall k | k in r.queueOf :: IsSecretPrompt(k) <==> r.queueOf[k] == q)
            && (forall k | IsSecretPrompt(k) :: k in r.queueOf)
            && r.queues[q] == Items(s.buffers, answers)
  {
    var first := SECRET_PROMPTS[0];
    var t, r := Add(s, first, answers), Share(s, SECRET_PROMPTS, answers);
    q := t.queueOf[first];
    assert q == |s.queues|;
    AliasMaps(t, SECRET_PROMPTS[1..], q);
    assert forall k :: IsSecretPrompt(k) <==> k == first || k in SECRET_PROMPTS[1..];
    assert [] + Items(s.buffers, answers) == Items(s.buffers, answers);
    SharedKeeps(s, r, q, mayReplace);
  }

  /** The new queue is the last one; all secret prompts and nothing else name it. */
  lemma SharedKeeps(s: Script, r: Script, q: nat, mayReplace: bool)
    requires Disciplined(s, mayReplace) && WellFormed(r) && q == |s.queues| && |r.queues| == q + 1
    requires forall k | k in s.queueOf :: !IsSecretPrompt(k)
    requires forall k :: k in r.queueOf <==> k in s.queueOf || IsSecretPrompt(k)
    requires forall k | k in r.queueOf :: r.queueOf[k] == if IsSecretPrompt(k) then q else s.queueOf[k]
    requires r.queues[..q] == s.queues
    ensures Disciplined(r, mayReplace)
    ensures forall k | k in r.queueOf :: IsSecretPrompt(k) <==> r.queueOf[k] == q
  {
    assert forall i | 0 <= i < q :: r.queues[i] == s.queues[i];
    SecretPromptsStartWithP(PROMPT_REPLACE_KEYS);
  }

  lemma TakeKeeps(s: Script, keyword: string, mayReplace: bool)
    requires Disciplined(s, mayReplace)
    ensures Disciplined(Take(s, keyword).0, mayReplace)
    ensures Take(s, keyword).1.Some? ==>
              var item := Take(s, keyword).1.value;
              && (item.secret ==> IsSecretPrompt(keyword))
              && (keyword == PROMPT_REPLACE_KEYS && item.data == YES ==> mayReplace)
  {
  }

  ghost predicate SafeExchange(x: Exchange, mayReplace: bool) {
    && (x.item.secret ==> IsSecretPrompt(x.keyword))
    && (x.keyword == PROMPT_REPLACE_KEYS && x.item.data == YES ==> mayReplace)
  }

  lemma {:induction false} DialogueSafe(s: Script, prompts: seq<string>, mayReplace: bool)
    requires Disciplined(s, mayReplace)
    ensures forall i | 0 <= i < |Dialogue(s, prompts)| :: SafeExchange(Dialogue(s, prompts)[i], mayReplace)
    decreases |prompts|
  {
    if prompts != [] {
      TakeKeeps(s, prompts[0], mayReplace);
      var (t, item) := Take(s, prompts[0]);
      if item.Some? {
        DialogueSafe(t, prompts[1..], mayReplace);
      }
    }
  }

  // ---------------------------------------------------------------- the builders

  datatype CardScript =
    | ChangePin(admin: bool, current: bytes, changed: bytes)
    | UnblockPin(adminPin: bytes, newUserPin: bytes)
    | KeyToCard(slot: nat, keyIndex: nat, keyPassphrase: bytes, adminPin: bytes)
    | GenerateOnCard(adminPin: bytes, userPin: bytes, name: bytes, email: bytes, expiry: bytes,
                     offCardBackup: bool, replaceExisting: bool)

  /** `_reject_control_characters` lets this pass. */
  predicate IsPin(b: bytes) { b != [] && 0 !in b && 10 !in b && 13 !in b }

  function Say(s: string): Answer { Word(EncodeAscii(s)) }

  function YesNo(b: bool): Answer { Word(if b then YES else NO) }

  /** The pins a builder checks before it builds anything. */
  function CheckedPins(cs: CardScript): seq<bytes> {
    match cs
    case ChangePin(_, current, changed) => [current, changed]
    case UnblockPin(adminPin, newUserPin) => [adminPin, newUserPin]
    case KeyToCard(_, _, _, adminPin) => [adminPin]
    case GenerateOnCard(adminPin, userPin, _, _, _, _, _) => [adminPin, userPin]
  }

  /** The plain answers, prompt by prompt in the order they are added. */
  function Menu(cs: CardScript): seq<(string, seq<Answer>)> {
    match cs
    case ChangePin(admin, _, _) =>
      [(PROMPT_CARD_MENU, [Say("admin"), Say("passwd"), Say("quit")]),
       (PROMPT_PIN_MENU, [Say(if admin then "3" else "1"), Say("Q")])]
    case UnblockPin(_, _) =>
      [(PROMPT_CARD_MENU, [Say("admin"), Say("passwd"), Say("quit")]),
       (PROMPT_PIN_MENU, [Say("2"), Say("Q")])]
    case KeyToCard(slot, keyIndex, _, _) =>
      (if keyIndex > 0 then
         [(PROMPT_KEY_MENU, [Say("key " + Text.Decimal(keyIndex)), Say("keytocard"), Say("save")])]
       else
         [(PROMPT_KEY_MENU, [Say("keytocard"), Say("save")]), (PROMPT_USE_PRIMARY, [Word(YES)])])
      + [(PROMPT_SLOT, [Say(Text.Decimal(slot))]), (PROMPT_SAVE, [Word(YES)])]
    case GenerateOnCard(_, _, name, email, expiry, offCardBackup, replaceExisting) =>
      [(PROMPT_CARD_MENU, [Say("admin"), Say("generate"), Say("quit")]),
       (PROMPT_REPLACE_KEYS, [YesNo(replaceExisting)]),
       (PROMPT_BACKUP_ENC, [YesNo(offCardBackup)]),
       (PROMPT_EXPIRY, [Word(expiry)]),
       (PROMPT_NAME, [Word(name)]),
       (PROMPT_EMAIL, [Word(email)]),
       (PROMPT_COMMENT, [Say("")]),
       (PROMPT_USERID_CMD, [Say("O")])]
  }

  /** The secrets, in the order they are queued. */
  function Secrets(cs: CardScript): seq<Answer> {
    match cs
    case ChangePin(_, current, changed) => [Secret(current), Secret(changed), Secret(changed)]
    case UnblockPin(adminPin, newUserPin) => [Secret(adminPin), Secret(newUserPin), Secret(newUserPin)]
    case KeyToCard(_, _, keyPassphrase, adminPin) => [Secret(keyPassphrase), Secret(adminPin)]
    case GenerateOnCard(adminPin, userPin, _, _, _, _, _) => [Secret(adminPin), Secret(userPin)]
  }

  function AddMenu(s: Script, menu: seq<(string, seq<Answer>)>): (r: Script)
    requires WellFormed(s)
    ensures WellFormed(r)
    decreases |menu|
  {
    if menu == [] then s else AddMenu(Add(s, menu[0].0, menu[0].1), menu[1..])
  }

  predicate Accepted(cs: CardScript) { forall i | 0 <= i < |CheckedPins(cs)| :: IsPin(CheckedPins(cs)[i]) }

  /** The four builders; None is the ValueError of a rejected pin. */
  function Build(cs: CardScript): (r: Option<Script>)
    ensures r.Some? ==> WellFormed(r.value)
  {
    if !Accepted(cs) then None else Some(Share(AddMenu(EMPTY, Menu(cs)), SECRET_PROMPTS, Secrets(cs)))
  }

  predicate MayReplace(cs: CardScript) { cs.GenerateOnCard? && cs.replaceExisting }

  /** One line of a menu the discipline allows. */
  predicate PlainLine(line: (string, seq<Answer>), mayReplace: bool) {
    && line.0 != [] && line.0[0] != 'p' && AllWords(line.1)
    && (mayReplace || line.0 != PROMPT_REPLACE_KEYS || NoYesWords(line.1))
  }

  lemma {:induction false} MenuKeeps(s: Script, menu: seq<(string, seq<Answer>)>, mayReplace: bool)
    requires Disciplined(s, mayReplace) && forall k | k in s.queueOf :: !IsSecretPrompt(k)
    requires forall i | 0 <= i < |menu| :: PlainLine(menu[i], mayReplace)
    ensures Disciplined(AddMenu(s, menu), mayReplace)
    ensures forall k | k in AddMenu(s, menu).queueOf :: !IsSecretPrompt(k)
    decreases |menu|
  {
    if menu != [] {
      assert PlainLine(menu[0], mayReplace);
      SecretPromptsStartWithP(menu[0].0);
      AddKeeps(s, menu[0].0, menu[0].1, mayReplace);
      MenuKeeps(Add(s, menu[0].0, menu[0].1), menu[1..], mayReplace);
    }
  }

  lemma MenusArePlain(cs: CardScript)
    ensures forall i | 0 <= i < |Menu(cs)| :: PlainLine(Menu(cs)[i], MayReplace(cs))
  {
  }

  /**
   Whatever GnuPG asks, in whatever order and however often: a secret is only
   ever handed to a secret prompt, and "y" to the replace-keys prompt only by a
   generate script that was built to replace.
   */
  lemma ScriptSafety(cs: CardScript, s: Script, prompts: seq<string>)
    requires Build(cs) == Some(s)
    ensures forall i | 0 <= i < |Dialogue(s, prompts)| :: SafeExchange(Dialogue(s, prompts)[i], MayReplace(cs))
  {
    var _ := BuildKeeps(cs, s);
    DialogueSafe(s, prompts, MayReplace(cs));
  }

  lemma BuildKeeps(cs: CardScript, s: Script) returns (q: nat)
    requires Build(cs) == Some(s)
    ensures && Disciplined(s, MayReplace(cs)) && q < |s.queues|
            && (forall k | k in s.queueOf :: IsSecretPrompt(k) <==> s.queueOf[k] == q)
            && s.queues[q] == Items(AddMenu(EMPTY, Menu(cs)).buffers, Secrets(cs))
  {
    MenusArePlain(cs);
    MenuKeeps(EMPTY, Menu(cs), MayReplace(cs));
    q := ShareKeeps(AddMenu(EMPTY, Menu(cs)), Secrets(cs), MayReplace(cs));
  }

  function SecretsHanded(xs: seq<Exchange>): seq<Item> {
    if xs == [] then []
    else (if xs[0].item.secret then [xs[0].item] else []) + SecretsHanded(xs[1..])
  }

  /**
   The secrets a dialogue hands out, under whichever of the alias prompts, are
   the queued ones, in queued order, each at most once: a prefix of the queue.
   */
  lemma SecretsInOrder(cs: CardScript, s: Script, prompts: seq<string>)
    requires Build(cs) == Some(s)
    ensures SecretsHanded(Dialogue(s, prompts)) <= Items(AddMenu(EMPTY, Menu(cs)).buffers, Secrets(cs))
  {
    var q := BuildKeeps(cs, s);
    ItemsAreSecret(AddMenu(EMPTY, Menu(cs)).buffers, Secrets(cs));
    SecretsArePrefix(s, prompts, q, MayReplace(cs));
  }

  lemma ItemsAreSecret(from: nat, answers: seq<Answer>)
    requires forall i | 0 <= i < |answers| :: answers[i].Secret?
    ensures forall i | 0 <= i < |answers| :: Items(from, answers)[i].secret
  {
  }

  lemma SecretsArePrefix(s: Script, prompts: seq<string>, q: nat, mayReplace: bool)
    requires Disciplined(s, mayReplace) && q < |s.queues|
    requires forall k | k in s.queueOf :: IsSecretPrompt(k) <==> s.queueOf[k] == q
    requires forall i | 0 <= i < |s.queues[q]| :: s.queues[q][i].secret
    ensures SecretsHanded(Dialogue(s, prompts)) <= s.queues[q]
  {
    QueueConserved(s, prompts, q);
    SecretsComeFrom(s, prompts, q, mayReplace);
  }

  /** With all secret prompts on queue q and only secrets in it, the secrets handed out are what q gave out. */
  lemma {:induction false} SecretsComeFrom(s: Script, prompts: seq<string>, q: nat, mayReplace: bool)
    requires Disciplined(s, mayReplace) && q < |s.queues|
    requires forall k | k in s.queueOf :: IsSecretPrompt(k) <==> s.queueOf[k] == q
    requires forall i | 0 <= i < |s.queues[q]| :: s.queues[q][i].secret
    ensures SecretsHanded(Dialogue(s, prompts)) == FromQueue(s, Dialogue(s, prompts), q)
    decreases |prompts|
  {
    if prompts != [] {
      TakeKeeps(s, prompts[0], mayReplace);
      var (t, item) := Take(s, prompts[0]);
      if item.Some? {
        SecretsComeFrom(t, prompts[1..], q, mayReplace);
        SameQueues(s, t, Dialogue(t, prompts[1..]), q);
        var xs := Dialogue(s, prompts);
        assert xs[0] == Exchange(prompts[0], item.value) && xs[1..] == Dialogue(t, prompts[1..]);
      }
    }
  }

  // ---------------------------------------------------------------- one line per answer

  predicate OneLineItems(items: seq<Item>) { forall i | 0 <= i < |items| :: NEWLINE !in items[i].data }

  /** No queued answer would be read by GnuPG as more than one. */
  predicate OneLine(s: Script) { forall q | 0 <= q < |s.queues| :: OneLineItems(s.queues[q]) }

  predicate OneLineAnswers(answers: seq<Answer>) {
    forall i | 0 <= i < |answers| :: NEWLINE !in (if answers[i].Word? then answers[i].utf8 else answers[i].raw)
  }

  /** The inputs that reach GnuPG without having been checked here. */
  function Unchecked(cs: CardScript): seq<bytes> {
    match cs
    case KeyToCard(_, _, keyPassphrase, _) => [keyPassphrase]
    case GenerateOnCard(_, _, name, email, expiry, _, _) => [name, email, expiry]
    case _ => []
  }

  lemma ItemsOneLine(from: nat, answers: seq<Answer>)
    ensures OneLineItems(Items(from, answers)) <==> OneLineAnswers(answers)
  {
    var items := Items(from, answers);
    forall i | 0 <= i < |answers|
      ensures items[i].data == if answers[i].Word? then answers[i].utf8 else answers[i].raw
    {
    }
  }

  lemma AppendOneLine(s: Script, q: nat, items: seq<Item>)
    requires WellFormed(s) && q < |s.queues|
    ensures OneLine(Append(s, q, items)) <==> OneLine(s) && OneLineItems(items)
  {
    var r := Append(s, q, items);
    var old_, new_ := s.queues[q], r.queues[q];
    assert OneLineItems(new_) <==> OneLineItems(old_) && OneLineItems(items) by {
      assert forall i | 0 <= i < |items| :: new_[|old_| + i] == items[i];
      assert forall i | 0 <= i < |old_| :: new_[i] == old_[i];
    }
    assert forall p | 0 <= p < |s.queues| && p != q :: r.queues[p] == s.queues[p];
  }

  lemma AddOneLine(s: Script, keyword: string, answers: seq<Answer>)
    requires WellFormed(s)
    ensures OneLine(Add(s, keyword, answers)) <==> OneLine(s) && OneLineAnswers(answers)
  {
    var t := WithQueue(s, keyword);
    assert OneLine(t) <==> OneLine(s) by {
      assert forall p | 0 <= p < |s.queues| :: t.queues[p] == s.queues[p];
    }
    AppendOneLine(t, t.queueOf[keyword], Items(s.buffers, answers));
    ItemsOneLine(s.buffers, answers);
  }

  lemma {:induction false} MenuOneLine(s: Script, menu: seq<(string, seq<Answer>)>)
    requires WellFormed(s)
    ensures OneLine(AddMenu(s, menu)) <==> OneLine(s) && forall i | 0 <= i < |menu| :: OneLineAnswers(menu[i].1)
    decreases |menu|
  {
    if menu != [] {
      AddOneLine(s, menu[0].0, menu[0].1);
      MenuOneLine(Add(s, menu[0].0, menu[0].1), menu[1..]);
      assert forall i | 1 <= i < |menu| :: menu[i] == menu[1..][i - 1];
      assert forall i | 0 <= i < |menu[1..]| :: menu[1..][i] == menu[i + 1];
    }
  }

  lemma SayOneLine(s: string)
    requires forall i | 0 <= i < |s| :: s[i] != '\n'
    ensures NEWLINE !in EncodeAscii(s)
  {
  }

  /** The words the builders themselves supply are single lines. */
  lemma ConstantsOneLine()
    ensures forall w | w in ["admin", "passwd", "quit", "1", "2", "3", "Q", "keytocard", "save", "generate", "", "O"] ::
              NEWLINE !in EncodeAscii(w)
    ensures NEWLINE !in YES && NEWLINE !in NO
  {
    forall w | w in ["admin", "passwd", "quit", "1", "2", "3", "Q", "keytocard", "save", "generate", "", "O"]
      ensures NEWLINE !in EncodeAscii(w)
    {
      SayOneLine(w);
    }
  }

  lemma MenuWords(cs: CardScript)
    requires Accepted(cs)
    ensures (forall i | 0 <= i < |Menu(cs)| :: OneLineAnswers(Menu(cs)[i].1)) && OneLineAnswers(Secrets(cs))
      <==> forall i | 0 <= i < |Unchecked(cs)| :: NEWLINE !in Unchecked(cs)[i]
  {
    match cs
    case ChangePin(_, _, _) => PinWords(cs);
    case UnblockPin(_, _) => PinWords(cs);
    case KeyToCard(_, _, _, _) => KeyToCardWords(cs);
    case GenerateOnCard(_, _, _, _, _, _, _) => GenerateWords(cs);
  }

  lemma PinWords(cs: CardScript)
    requires Accepted(cs) && (cs.ChangePin? || cs.UnblockPin?)
    ensures forall i | 0 <= i < |Menu(cs)| :: OneLineAnswers(Menu(cs)[i].1)
    ensures OneLineAnswers(Secrets(cs)) && Unchecked(cs) == []
  {
    PinMenu(cs);
    assert IsPin(CheckedPins(cs)[0]) && IsPin(CheckedPins(cs)[1]);
  }

  lemma PinMenu(cs: CardScript)
    requires cs.ChangePin? || cs.UnblockPin?
    ensures forall i | 0 <= i < |Menu(cs)| :: OneLineAnswers(Menu(cs)[i].1)
  {
    ConstantsOneLine();
    var m := Menu(cs);
    assert |m| == 2 && OneLineAnswers(m[0].1) && OneLineAnswers(m[1].1);
  }

  lemma KeyToCardWords(cs: CardScript)
    requires Accepted(cs) && cs.KeyToCard?
    ensures forall i | 0 <= i < |Menu(cs)| :: OneLineAnswers(Menu(cs)[i].1)
    ensures OneLineAnswers(Secrets(cs)) <==> NEWLINE !in cs.keyPassphrase
    ensures (forall i | 0 <= i < |Unchecked(cs)| :: NEWLINE !in Unchecked(cs)[i]) <==> NEWLINE !in cs.keyPassphrase
  {
    ConstantsOneLine();
    assert IsPin(CheckedPins(cs)[0]);
    SayOneLine("key " + Text.Decimal(cs.keyIndex));
    SayOneLine(Text.Decimal(cs.slot));
    assert Secrets(cs)[0].raw == cs.keyPassphrase == Unchecked(cs)[0];
  }

  lemma GenerateWords(cs: CardScript)
    requires Accepted(cs) && cs.GenerateOnCard?
    ensures (forall i | 0 <= i < |Menu(cs)| :: OneLineAnswers(Menu(cs)[i].1))
      <==> forall i | 0 <= i < |Unchecked(cs)| :: NEWLINE !in Unchecked(cs)[i]
    ensures OneLineAnswers(Secrets(cs))
  {
    GenerateConstants(cs);
    var m, u := Menu(cs), Unchecked(cs);
    OneWord(cs.expiry);
    OneWord(cs.name);
    OneWord(cs.email);
    assert m[3].1 == [Word(cs.expiry)] && m[4].1 == [Word(cs.name)] && m[5].1 == [Word(cs.email)];
    assert u[0] == cs.name && u[1] == cs.email && u[2] == cs.expiry;
  }

  lemma GenerateConstants(cs: CardScript)
    requires Accepted(cs) && cs.GenerateOnCard?
    ensures OneLineAnswers(Secrets(cs))
    ensures forall i | i in {0, 1, 2, 6, 7} :: OneLineAnswers(Menu(cs)[i].1)
  {
    ConstantsOneLine();
    assert IsPin(CheckedPins(cs)[0]) && IsPin(CheckedPins(cs)[1]);
  }

  lemma OneWord(b: bytes)
    ensures OneLineAnswers([Word(b)]) <==> NEWLINE !in b
  {
    assert [Word(b)][0] == Word(b);
  }

  /**
   A built script answers every prompt with exactly one line if and only if the
   inputs its builder does not check contain no newline.  In particular
   `keytocard_script` checks the admin PIN but not the key passphrase.
   */
  lemma OneLinePerAnswer(cs: CardScript)
    requires Build(cs).Some?
    ensures OneLine(Build(cs).value) <==> forall i | 0 <= i < |Unchecked(cs)| :: NEWLINE !in Unchecked(cs)[i]
  {
    var s := AddMenu(EMPTY, Menu(cs));
    MenuOneLine(EMPTY, Menu(cs));
    AddOneLine(s, SECRET_PROMPTS[0], Secrets(cs));
    MenuWords(cs);
    assert Build(cs).value.queues == Add(s, SECRET_PROMPTS[0], Secrets(cs)).queues;
  }
}
