/** The shapes shared by the store's components: actions, their lifecycle and state metadata. */
module Symbols {
  import opened Wrappers
  import opened Json

  /**
   * An action value: an instance of an action class, a plain object with a
   * `type` field, or an action class itself. `id` is the object's identity
   * (what `===` compares); `classType` is `constructor.type` (the static type
   * of the instance's class, `None` for plain objects and for classes);
   * `ownType` is the value's own `type` field (the static field for a class).
   */
  datatype ActionRef = ActionRef(id: nat, classType: Option<string>, ownType: Option<string>)

  /** The lifecycle stage an action has reached. */
  datatype Status = Dispatched | Successful | Canceled | Errored

  /** An event on the action stream; `error` is `undefined` unless the action errored. */
  datatype ActionContext = ActionContext(action: ActionRef, status: Status, error: Value)

  /** Options given to the `Action` decorator. */
  datatype ActionOptions = ActionOptions(cancelUncompleted: bool)

  /** One registered handler: the method name, its options, the action type it handles. */
  datatype HandlerMeta = HandlerMeta(fn: string, options: ActionOptions, actionType: string)

  /** The handler lists of one state class, keyed by action type. */
  type ActionsMap = map<string, seq<HandlerMeta>>

  /**
   * The names a plain `{}` answers with an inherited, truthy member that is
   * not a list: the members of `Object.prototype`.
   */
  const InheritedKeys: set<string> := {
    "constructor", "toString", "toLocaleString", "valueOf", "hasOwnProperty",
    "isPrototypeOf", "propertyIsEnumerable", "__proto__", "__defineGetter__",
    "__defineSetter__", "__lookupGetter__", "__lookupSetter__"
  }

  /** The handlers registered for `key`, or none. */
  function HandlersAt(m: ActionsMap, key: string): seq<HandlerMeta> {
    if key in m then m[key] else []
  }

  /**
   * The metadata object a state class carries under its metadata key: its
   * handler lists, its declared defaults, and the path the registry assigns.
   */
  class StateMeta {
    var actions: ActionsMap
    var defaults: Value
    var path: Option<string>

    constructor (defaults: Value)
      ensures actions == map[] && this.defaults == defaults && path == None
    {
      actions := map[];
      this.defaults := defaults;
      path := None;
    }
  }
}
