/** The two signalling tools of the sub-conversation protocol: validation of the model's
    arguments and construction of the signal. */
module SubconversationTools {
  import opened Common

  /** An argument: a text, or any other JSON value with its serialisation, the text it turns into
      as a key or inside a template, and its truthiness. */
  datatype Value = Text(text: string) | Other(json: string, asText: string, truthy: bool)
  {
    predicate Truthy()
      ensures Text? ==> (Truthy() <==> text != "")
      ensures Other? ==> (Truthy() <==> truthy)
    {
      if Text? then text != "" else truthy
    }

    function ToText(): string {
      if Text? then text else asText
    }
  }

  /** Arguments as the model sends them; a missing one has no entry. */
  type Args = map<string, Value>

  /** The argument, when it is there and truthy. */
  function Given(args: Args, name: string): (v: Option<Value>)
    ensures v.Some? <==> name in args && args[name].Truthy()
    ensures v.Some? ==> v.value == args[name]
  {
    if name in args && args[name].Truthy() then Some(args[name]) else None
  }

  /** The role serves as a key; a falsy initial context counts as none. */
  datatype Request = Request(role: string, initialContext: Option<string>)

  datatype EndDetails = EndDetails(
    status: Value, finalResult: Value, lastUserMessage: Value, messageToCoordinator: Option<Value>)

  datatype Signal =
    | RequestSubConversation(request: Request)
    | EndSubConversation(details: EndDetails)
    | SignalError

  /** request_specialist_sub_conversation: both arguments must be truthy. */
  function RequestSpecialist(args: Args): (s: Signal)
    ensures s.RequestSubConversation? <==>
      Given(args, "specialist_role").Some? && Given(args, "initial_context").Some?
    ensures s.RequestSubConversation? ==>
      && s.request.role == args["specialist_role"].ToText()
      && s.request.initialContext == Some(args["initial_context"].ToText())
    ensures s.RequestSubConversation? || s.SignalError?
  {
    var role, context := Given(args, "specialist_role"), Given(args, "initial_context");
    if role.None? || context.None? then SignalError
    else RequestSubConversation(Request(role.value.ToText(), Some(context.value.ToText())))
  }

  /** end_specialist_sub_conversation: a truthy status; result and last user message may be
      anything but missing; a falsy note to the coordinator counts as none. */
  function EndSpecialist(args: Args): (s: Signal)
    ensures s.EndSubConversation? <==>
      Given(args, "status").Some? && "final_result" in args && "last_user_message" in args
    ensures s.EndSubConversation? ==>
      && s.details.status == args["status"] && s.details.finalResult == args["final_result"]
      && s.details.lastUserMessage == args["last_user_message"]
      && (s.details.messageToCoordinator.Some? <==>
            "message_to_coordinator" in args && args["message_to_coordinator"].Truthy())
      && (s.details.messageToCoordinator.Some? ==>
            s.details.messageToCoordinator.value == args["message_to_coordinator"])
    ensures s.EndSubConversation? || s.SignalError?
  {
    if Given(args, "status").None? || "final_result" !in args || "last_user_message" !in args then SignalError
    else EndSubConversation(
      EndDetails(args["status"], args["final_result"], args["last_user_message"], Given(args, "message_to_coordinator")))
  }
}
