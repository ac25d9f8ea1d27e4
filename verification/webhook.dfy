/** The chat bot of `server.js`: the webhook verification handshake and the
    six-step order dialogue kept in a process-wide map from sender to session.
    Each inbound message is one call of `Handle`, a pure function from the
    session map and the message to the new map and the one reply to send. */
module Webhook {
  import opened Wrappers
  import opened Text

  // ---------------------------------------------------------------------------
  // Verification handshake (GET /webhook)
  // ---------------------------------------------------------------------------

  const SubscribeMode: string := "subscribe"

  /** The answer to a verification request: status 200 echoing the challenge,
      or status 403. */
  datatype VerifyResponse = Accepted(challenge: Option<string>) | Forbidden

  /** Status code of a verification answer. */
  function VerifyStatus(r: VerifyResponse): int {
    if r.Accepted? then 200 else 403
  }

  /** The query parameters `hub.mode`, `hub.verify_token` and `hub.challenge`
      and the configured token are each possibly absent; JavaScript's `===`
      compares them as such, so an absent token matches an absent
      configuration. */
  function Verify(mode: Option<string>, token: Option<string>, challenge: Option<string>,
                  verifyToken: Option<string>): (r: VerifyResponse)
    ensures r.Accepted? <==> mode == Some(SubscribeMode) && token == verifyToken
    ensures r.Accepted? ==> r.challenge == challenge
    ensures VerifyStatus(r) == 200 || VerifyStatus(r) == 403
  {
    if mode == Some(SubscribeMode) && token == verifyToken then Accepted(challenge)
    else Forbidden
  }

  /** With no token configured, a subscribe request that carries no token is
      accepted. */
  lemma UnsetTokenAcceptsMissingToken(challenge: Option<string>)
    ensures VerifyStatus(Verify(Some(SubscribeMode), None, challenge, None)) == 200
  {
  }

  // ---------------------------------------------------------------------------
  // Sessions and messages
  // ---------------------------------------------------------------------------

  /** The record a sender's dialogue keeps: the current step and the answers
      collected so far (absent until their step has been answered). */
  datatype Session = Session(
    step: int,
    cantidad: Option<string>,
    tipo: Option<string>,
    salsa: Option<string>,
    bebida: Option<string>,
    direccion: Option<string>)

  /** The record created for a sender that has no session. */
  const NewSession := Session(1, None, None, None, None, None)

  type SessionMap = map<string, Session>

  /** An inbound message: the sender and the text body, absent for messages
      that are not text. */
  datatype Message = Message(from: string, body: Option<string>)

  /** One outbound text message. */
  datatype Reply = Reply(to: string, body: string)

  /** The effect of one webhook event on the bot: the new session map and the
      reply to send, if any. */
  datatype Outcome = Outcome(sessions: SessionMap, reply: Option<Reply>)

  /** The text the dialogue works on: the body with surrounding whitespace
      removed, or "" when the message has no text body. */
  function InputText(m: Message): (t: string)
    ensures m.body.None? ==> t == ""
    ensures m.body.Some? ==> t == Trim(m.body.value)
    ensures Tight(t)
  {
    Trim(m.body.GetOr(""))
  }

  // ---------------------------------------------------------------------------
  // Replies
  // ---------------------------------------------------------------------------

  const Welcome: string := "\U{1F357} ¡Hola! Bienvenido a Alitas Express.\n¿Cuántas alitas quieres?"
  const AskTipo: string := "¿Las deseas *apanadas* o *fritas*?"
  const AskSalsa: string := "Perfecto \U{1F60B} ¿Qué salsa prefieres? (BBQ / Picante / Mango / Miel)"
  const AskBebida: string := "¿Bebida? Responde: Coca-Cola o Corona"
  const AskDireccion: string := "Por favor envía tu dirección completa para la entrega \U{1F4CD}"
  const ErrorReply: string := "Lo siento, hubo un error. Envía *hola* para empezar de nuevo."

  /** A template-literal interpolation `${v}`: an absent value prints as "undefined". */
  function Show(v: Option<string>): string {
    v.GetOr("undefined")
  }

  /** The order summary sent at the last step. */
  function Summary(cantidad: Option<string>, tipo: Option<string>, salsa: Option<string>,
                   bebida: Option<string>, direccion: Option<string>): string
  {
    "\U{2705} Pedido recibido:\n- " + Show(cantidad) + " alitas\n- " + Show(tipo)
    + "\n- Salsa: " + Show(salsa) + "\n- Bebida: " + Show(bebida)
    + "\n- Dirección: " + Show(direccion) + "\n\n¡Gracias! En breve confirmamos."
  }

  /** The question a session waiting at `step` has last been asked. */
  function Prompt(step: int): string {
    match step
    case 2 => Welcome
    case 3 => AskTipo
    case 4 => AskSalsa
    case 5 => AskBebida
    case 6 => AskDireccion
    case _ => ErrorReply
  }

  /** The answer a session stores when it leaves `step`. */
  function Answer(s: Session, step: int): Option<string> {
    match step
    case 2 => s.cantidad
    case 3 => s.tipo
    case 4 => s.salsa
    case 5 => s.bebida
    case 6 => s.direccion
    case _ => None
  }

  // ---------------------------------------------------------------------------
  // The dialogue
  // ---------------------------------------------------------------------------

  /** One step of a session: the session that remains (absent when it is
      deleted) and the reply. */
  datatype Transition = Transition(next: Option<Session>, reply: string)

  /** The `switch` on the session's step. No answer is ever rejected. */
  function Advance(s: Session, text: string): Transition {
    match s.step
    case 1 => Transition(Some(s.(step := 2)), Welcome)
    case 2 => Transition(Some(s.(cantidad := Some(text), step := 3)), AskTipo)
    case 3 => Transition(Some(s.(tipo := Some(text), step := 4)), AskSalsa)
    case 4 => Transition(Some(s.(salsa := Some(text), step := 5)), AskBebida)
    case 5 => Transition(Some(s.(bebida := Some(text), step := 6)), AskDireccion)
    case 6 => Transition(None, Summary(s.cantidad, s.tipo, s.salsa, s.bebida, Some(text)))
    case _ => Transition(None, ErrorReply)
  }

  /** Key `k` is bound in `a` exactly when it is in `b`, and to the same session. */
  ghost predicate SameEntry(a: SessionMap, b: SessionMap, k: string) {
    (k in a <==> k in b) && (k in a ==> a[k] == b[k])
  }

  /** One POST /webhook event. An event without a message changes nothing and
      sends nothing; a message gets exactly one reply, addressed to its sender,
      and only its sender's session may change. */
  function Handle(sessions: SessionMap, message: Option<Message>): (o: Outcome)
    ensures message.None? ==> o.sessions == sessions && o.reply.None?
    ensures message.Some? ==> o.reply.Some? && o.reply.value.to == message.value.from
    ensures message.Some? ==>
      forall k :: k != message.value.from ==> SameEntry(o.sessions, sessions, k)
  {
    match message
    case None => Outcome(sessions, None)
    case Some(m) => Receive(sessions, m.from, InputText(m))
  }

  /** A message from `from` whose text, once trimmed, is `text`: the sender's
      session (a new one if there is none) takes one step; it is stored back,
      or deleted when the step ends the dialogue. */
  function Receive(sessions: SessionMap, from: string, text: string): (o: Outcome)
    ensures o.reply.Some? && o.reply.value.to == from
    ensures forall k :: k != from ==> SameEntry(o.sessions, sessions, k)
  {
    var s := if from in sessions then sessions[from] else NewSession;
    var t := Advance(s, text);
    var next := if t.next.Some? then sessions[from := t.next.value] else sessions - {from};
    Outcome(next, Some(Reply(from, t.reply)))
  }

  /** The HTTP answer to a POST /webhook event, given whether sending the reply
      succeeded. The session map has already changed before the send, so a
      failed send answers 500 without undoing that change. */
  datatype PostResult = PostResult(sessions: SessionMap, status: int)

  function Post(sessions: SessionMap, message: Option<Message>, sendSucceeded: bool): (r: PostResult)
    ensures r.sessions == Handle(sessions, message).sessions
    ensures message.None? ==> r.status == 200
    ensures message.Some? ==> (r.status == 200 <==> sendSucceeded)
    ensures message.Some? ==> (r.status == 500 <==> !sendSucceeded)
  {
    var o := Handle(sessions, message);
    if message.Some? && !sendSucceeded then PostResult(o.sessions, 500)
    else PostResult(o.sessions, 200)
  }

  // ---------------------------------------------------------------------------
  // Properties of single steps
  // ---------------------------------------------------------------------------

  /** A sender without a session is welcomed, whatever the text, and is left
      waiting at step 2 with nothing collected. */
  lemma FirstContact(sessions: SessionMap, m: Message)
    requires m.from !in sessions
    ensures var o := Handle(sessions, Some(m));
      && o.reply == Some(Reply(m.from, Welcome))
      && m.from in o.sessions
      && o.sessions[m.from] == Session(2, None, None, None, None, None)
  {
  }

  /** At steps 2 to 5 the trimmed text, empty or not, becomes the answer to
      that step; the session moves to the next step, keeps its other answers
      and is asked the next question. */
  lemma StoresAnswer(sessions: SessionMap, m: Message)
    requires m.from in sessions && 2 <= sessions[m.from].step <= 5
    ensures var s := sessions[m.from];
            var o := Handle(sessions, Some(m));
      && m.from in o.sessions
      && o.sessions[m.from].step == s.step + 1
      && Answer(o.sessions[m.from], s.step) == Some(InputText(m))
      && (forall k :: k != s.step ==> Answer(o.sessions[m.from], k) == Answer(s, k))
      && o.reply == Some(Reply(m.from, Prompt(s.step + 1)))
  {
  }

  /** At step 6 the trimmed text is the address, the reply is the summary of
      all five answers and the session is deleted. */
  lemma FinalStepSummarizes(sessions: SessionMap, m: Message)
    requires m.from in sessions && sessions[m.from].step == 6
    ensures var s := sessions[m.from];
            var o := Handle(sessions, Some(m));
      && m.from !in o.sessions
      && o.reply == Some(Reply(m.from, Summary(s.cantidad, s.tipo, s.salsa, s.bebida, Some(InputText(m)))))
  {
  }

  /** A session at a step the `switch` does not know gets the error reply and
      is deleted. */
  lemma UnknownStepResets(sessions: SessionMap, m: Message)
    requires m.from in sessions && !(1 <= sessions[m.from].step <= 6)
    ensures var o := Handle(sessions, Some(m));
      && m.from !in o.sessions
      && o.reply == Some(Reply(m.from, ErrorReply))
  {
  }

  // ---------------------------------------------------------------------------
  // The session invariant
  // ---------------------------------------------------------------------------

  /** A stored session waits at steps 2 to 6 and holds exactly the answers of
      the steps it has passed. */
  ghost predicate WellFormed(s: Session) {
    && 2 <= s.step <= 6
    && (s.cantidad.Some? <==> s.step > 2)
    && (s.tipo.Some? <==> s.step > 3)
    && (s.salsa.Some? <==> s.step > 4)
    && (s.bebida.Some? <==> s.step > 5)
    && s.direccion.None?
  }

  ghost predicate Invariant(sessions: SessionMap) {
    forall from :: from in sessions ==> WellFormed(sessions[from])
  }

  /** A step taken from a new or well-formed session leaves a well-formed one,
      if any. */
  lemma AdvanceKeepsWellFormed(s: Session, text: string)
    requires s == NewSession || WellFormed(s)
    ensures Advance(s, text).next.Some? ==> WellFormed(Advance(s, text).next.value)
  {
  }

  /** Every event keeps the session invariant. In particular no stored session
      is ever at step 1: a new session is welcomed in the same event. */
  lemma HandlePreservesInvariant(sessions: SessionMap, message: Option<Message>)
    requires Invariant(sessions)
    ensures Invariant(Handle(sessions, message).sessions)
  {
    if message.Some? {
      var m := message.value;
      var s := if m.from in sessions then sessions[m.from] else NewSession;
      AdvanceKeepsWellFormed(s, InputText(m));
    }
  }

  /** While the invariant holds the error branch is never taken: a sender
      without a session is welcomed, a session at steps 2 to 5 is asked the
      next question, and one at step 6 gets the summary. */
  lemma ReplyFollowsDialogue(sessions: SessionMap, from: string, text: string)
    requires Invariant(sessions)
    ensures var step := if from in sessions then sessions[from].step else 1;
      && 1 <= step <= 6
      && Receive(sessions, from, text).reply.value.body
         == if step == 6 then
              var s := sessions[from];
              Summary(s.cantidad, s.tipo, s.salsa, s.bebida, Some(text))
            else Prompt(step + 1)
  {
    if from in sessions {
      assert WellFormed(sessions[from]);
    }
  }

  /** Under the invariant the summary prints the five answers themselves,
      never "undefined". */
  lemma SummaryHasAllAnswers(sessions: SessionMap, m: Message)
    requires Invariant(sessions)
    requires m.from in sessions && sessions[m.from].step == 6
    ensures var s := sessions[m.from];
      && s.cantidad.Some? && s.tipo.Some? && s.salsa.Some? && s.bebida.Some?
      && Handle(sessions, Some(m)).reply.value.body
         == Summary(s.cantidad, s.tipo, s.salsa, s.bebida, Some(InputText(m)))
  {
    assert WellFormed(sessions[m.from]);
  }

  // ---------------------------------------------------------------------------
  // Whole dialogues
  // ---------------------------------------------------------------------------

  /** Feeds the trimmed texts of `inputs`, each with its sender, to the bot one
      after another; returns the final session map and the replies in order. */
  function Run(sessions: SessionMap, inputs: seq<(string, string)>): (o: (SessionMap, seq<Reply>))
    ensures |o.1| == |inputs|
    ensures forall i :: 0 <= i < |inputs| ==> o.1[i].to == inputs[i].0
    decreases |inputs|
  {
    if inputs == [] then (sessions, [])
    else
      var first := Receive(sessions, inputs[0].0, inputs[0].1);
      var rest := Run(first.sessions, inputs[1..]);
      (rest.0, [first.reply.value] + rest.1)
  }

  /** Messages from other senders never touch the session of `k`, however
      they interleave. */
  lemma {:induction false} RunLeavesOthersAlone(sessions: SessionMap, inputs: seq<(string, string)>, k: string)
    requires forall i :: 0 <= i < |inputs| ==> inputs[i].0 != k
    ensures SameEntry(Run(sessions, inputs).0, sessions, k)
    decreases |inputs|
  {
    if inputs != [] {
      var first := Receive(sessions, inputs[0].0, inputs[0].1);
      var rest := inputs[1..];
      assert forall i :: 0 <= i < |rest| ==> rest[i].0 != k by {
        forall i | 0 <= i < |rest| ensures rest[i].0 != k {
          assert rest[i] == inputs[i + 1];
        }
      }
      RunLeavesOthersAlone(first.sessions, rest, k);
      assert Run(sessions, inputs).0 == Run(first.sessions, rest).0;
      assert SameEntry(first.sessions, sessions, k);
    }
  }

  /** A run whose first message moves the map to `next` with `reply` goes on
      from `next` with the remaining messages. */
  lemma RunStep(sessions: SessionMap, inputs: seq<(string, string)>, next: SessionMap, reply: Reply)
    requires inputs != []
    requires Receive(sessions, inputs[0].0, inputs[0].1) == Outcome(next, Some(reply))
    ensures Run(sessions, inputs) == (Run(next, inputs[1..]).0, [reply] + Run(next, inputs[1..]).1)
  {
  }

  /** The messages of `texts`, all from `from`, in order. */
  function Inputs(from: string, texts: seq<string>): seq<(string, string)>
  {
    seq(|texts|, i requires 0 <= i < |texts| => (from, texts[i]))
  }

  /** The messages from the `k`-th on are the `k`-th followed by the rest. */
  lemma InputsFrom(from: string, texts: seq<string>, k: nat)
    requires k < |texts|
    ensures Inputs(from, texts)[k..] != []
    ensures Inputs(from, texts)[k..][0] == (from, texts[k])
    ensures Inputs(from, texts)[k..][1..] == Inputs(from, texts)[k + 1..]
  {
  }

  /** The replies a complete dialogue receives: the welcome, the four
      questions, and the summary of the five answers. */
  function DialogueReplies(from: string, texts: seq<string>): (rs: seq<Reply>)
    requires |texts| == 6
  {
    [Reply(from, Welcome), Reply(from, AskTipo), Reply(from, AskSalsa),
     Reply(from, AskBebida), Reply(from, AskDireccion),
     Reply(from, Summary(Some(texts[1]), Some(texts[2]), Some(texts[3]), Some(texts[4]), Some(texts[5])))]
  }

  /** The sender's session after the first `k` messages of a dialogue, for
      `k` from 1 to 5: waiting at step `k + 1` with the answers given so far. */
  function SessionAfter(texts: seq<string>, k: int): Session
    requires |texts| == 6
  {
    Session(k + 1,
            if k >= 2 then Some(texts[1]) else None,
            if k >= 3 then Some(texts[2]) else None,
            if k >= 4 then Some(texts[3]) else None,
            if k >= 5 then Some(texts[4]) else None,
            None)
  }

  /** The session map after the first `k` messages of a dialogue. */
  function MapAfter(sessions: SessionMap, from: string, texts: seq<string>, k: int): SessionMap
    requires |texts| == 6
  {
    if 1 <= k <= 5 then sessions[from := SessionAfter(texts, k)] else sessions
  }

  /** Message `k` of a dialogue moves the map from its state after `k`
      messages to its state after `k + 1` and gets reply `k`. */
  lemma DialogueStep(sessions: SessionMap, from: string, texts: seq<string>, k: nat)
    requires |texts| == 6 && k < 6
    requires from !in sessions
    ensures Receive(MapAfter(sessions, from, texts, k), from, texts[k])
         == Outcome(MapAfter(sessions, from, texts, k + 1), Some(DialogueReplies(from, texts)[k]))
  {
    var m := MapAfter(sessions, from, texts, k);
    if k == 0 {
      assert from !in m;
    } else if k == 5 {
      assert m[from := SessionAfter(texts, 5)] - {from} == sessions;
    } else {
      assert m[from] == SessionAfter(texts, k);
      assert m[from := SessionAfter(texts, k + 1)] == MapAfter(sessions, from, texts, k + 1);
    }
  }

  /** From the state after `k` messages, the remaining messages get the
      remaining replies and leave the map as it was before the dialogue. */
  lemma {:induction false} DialogueRest(sessions: SessionMap, from: string, texts: seq<string>, k: nat)
    requires |texts| == 6 && k <= 6
    requires from !in sessions
    ensures Run(MapAfter(sessions, from, texts, k), Inputs(from, texts)[k..])
         == (sessions, DialogueReplies(from, texts)[k..])
    decreases 6 - k
  {
    var inputs := Inputs(from, texts);
    var replies := DialogueReplies(from, texts);
    if k == 6 {
      assert inputs[k..] == [] && replies[k..] == [];
    } else {
      var m, next := MapAfter(sessions, from, texts, k), MapAfter(sessions, from, texts, k + 1);
      var rest := inputs[k..];
      assert rest != [] && Receive(m, rest[0].0, rest[0].1) == Outcome(next, Some(replies[k])) by {
        InputsFrom(from, texts, k);
        DialogueStep(sessions, from, texts, k);
      }
      assert Run(next, rest[1..]) == (sessions, replies[k + 1..]) by {
        InputsFrom(from, texts, k);
        DialogueRest(sessions, from, texts, k + 1);
      }
      RunStep(m, rest, next, replies[k]);
      assert replies[k..] == [replies[k]] + replies[k + 1..];
    }
  }

  /** A complete dialogue: a sender without a session sends six messages. The
      first is answered with the welcome whatever it says; the next five are
      the quantity, style, sauce, drink and address; the sixth reply is the
      summary of exactly those five texts, and the session map is back to what
      it was. */
  lemma FullDialogue(sessions: SessionMap, from: string, texts: seq<string>)
    requires |texts| == 6
    requires from !in sessions
    ensures Run(sessions, Inputs(from, texts))
         == (sessions, [Reply(from, Welcome), Reply(from, AskTipo), Reply(from, AskSalsa),
                        Reply(from, AskBebida), Reply(from, AskDireccion),
                        Reply(from, Summary(Some(texts[1]), Some(texts[2]), Some(texts[3]),
                                            Some(texts[4]), Some(texts[5])))])
  {
    DialogueRest(sessions, from, texts, 0);
    assert Inputs(from, texts)[0..] == Inputs(from, texts);
    assert DialogueReplies(from, texts)[0..] == DialogueReplies(from, texts);
  }
}
