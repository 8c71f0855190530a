// The CXL fwctl driver's RPC gate: which user RPCs it lets through to the
// mailbox, at which scope.  The mailbox itself, the command table, the user
// copy and the hardware send are inputs.

module FwctlCxl {
  import opened Errno

  // ---- constants ---------------------------------------------------------

  /** enum fwctl_cxl_commands. */
  const QUERY_COMMANDS: nat := 0
  const SEND_COMMAND: nat := 1

  /**
   * enum fwctl_rpc_scope, in its order (the fwctl uapi header is not part
   * of this model; only the order of the scopes matters here).
   */
  const RPC_CONFIGURATION: nat := 0
  const RPC_DEBUG_READ_ONLY: nat := 1
  const RPC_DEBUG_WRITE: nat := 2
  const RPC_DEBUG_WRITE_FULL: nat := 3

  /**
   * Mailbox opcodes of the Features command set (CXL r3.1 section 8.2.9.6:
   * command set 05h, commands 00h, 01h and 02h).
   */
  const OP_GET_SUPPORTED_FEATURES: nat := 0x0500
  const OP_GET_FEATURE: nat := 0x0501
  const OP_SET_FEATURE: nat := 0x0502

  /** sizeof(struct set_feature_input): uuid[16], flags, offset, version, reserved[9]. */
  const SET_FEATURE_INPUT_SIZE: nat := 16 + 4 + 2 + 1 + 9

  /**
   * sizeof(struct cxl_mem_query_commands) without its flexible array
   * (n_commands, rsvd) and sizeof(struct cxl_command_info) (id, flags,
   * size_in, size_out).
   */
  const QUERY_HEADER_SIZE: nat := 8
  const COMMAND_INFO_SIZE: nat := 16

  const U32_LIMIT: nat := 0x1_0000_0000
  const I32_LIMIT: nat := 0x8000_0000
  const ULONG_LIMIT: nat := 0x1_0000_0000_0000_0000

  type u32 = x: nat | x < U32_LIMIT

  // ---- the user context ----------------------------------------------------

  /** struct cxlctl_uctx: the capabilities a context reports. */
  class Uctx {
    var caps: u32

    constructor ()
      ensures caps == 0
    {
      caps := 0;
    }

    /** cxlctl_open_uctx: BIT(QUERY_COMMANDS) | BIT(SEND_COMMAND); never fails. */
    method OpenUctx() returns (ret: Status)
      modifies this
      ensures caps == 3 && ret == Success
    {
      caps := 3;
      ret := Success;
    }

    /** cxlctl_info: the context's capabilities, or -ENOMEM when the allocation fails. */
    method Info(allocOk: bool) returns (r: Result<u32>)
      ensures allocOk ==> r == Ok(caps)
      ensures !allocOk ==> r == Err(ENOMEM)
    {
      if !allocOk {
        return Err(ENOMEM);
      }
      r := Ok(caps);
    }
  }

  /** BIT(cmd) is set in caps (for the two low bits that open_uctx writes). */
  predicate HasCap(caps: nat, cmd: nat)
  {
    (cmd == 0 && caps % 2 == 1) || (cmd == 1 && (caps / 2) % 2 == 1)
  }

  /** The capabilities open_uctx reports are exactly the two RPCs validate_rpc accepts. */
  lemma OpenCapsAreRpcs(cmd: nat)
    ensures HasCap(3, cmd) <==> (cmd == QUERY_COMMANDS || cmd == SEND_COMMAND)
  {
  }

  // ---- the RPC input -------------------------------------------------------

  /** The effect flags of a feature (its Set Feature effects), as a set. */
  datatype Effect =
    | ConfigChangeColdReset
    | ConfigChangeImmediate
    | DataChangeImmediate
    | PolicyChangeImmediate
    | LogChangeImmediate
    | SecurityStateChange
    | Background
    | ConfigChangeConvReset
    | ConfigChangeCxlReset

  type Uuid = seq<bv8>

  /** struct cxl_feat_entry: the parts the gate reads. */
  datatype FeatEntry = FeatEntry(uuid: Uuid, effects: set<Effect>)

  /**
   * struct cxl_mailbox: the feature entries (num_features of them) and the
   * command ids the kernel itself has enabled or holds exclusively.
   */
  datatype Mailbox = Mailbox(entries: seq<FeatEntry>, enabledCmds: set<nat>, exclusiveCmds: set<nat>)

  /** struct cxl_mem_command: the info id and the mailbox opcode. */
  datatype MemCommand = MemCommand(infoId: nat, opcode: nat)

  /** struct fwctl_cxl_command: the command id and the input payload size. */
  datatype SendCmd = SendCmd(id: u32, inSize: u32)

  /** struct fwctl_rpc_cxl: the header, the query's n_commands and the send command. */
  datatype RpcIn = RpcIn(rpcCmd: u32, payloadSize: u32, nCommands: u32, sendCmd: SendCmd)

  /**
   * What the gate reads from outside: cxl_get_mem_command's table, and the
   * UUID copy_from_user produces from the send command's payload (None
   * when the copy faults).
   */
  datatype Env = Env(commands: map<nat, MemCommand>, userUuid: Option<Uuid>)

  // ---- cxlctl_validate_query_commands ------------------------------------

  /** A u32 read into a C int. */
  function ToInt32(x: u32): int
  {
    if x < I32_LIMIT then x else x - U32_LIMIT
  }

  /** A C int converted to size_t. */
  function ToSizeT(x: int): nat
    requires -(I32_LIMIT as int) <= x < I32_LIMIT
  {
    if x >= 0 then x else ULONG_LIMIT + x
  }

  /**
   * cxlctl_validate_query_commands, with its C conversions: n_commands and
   * payload_size - sizeof(query) are read into int, and then compared and
   * divided as size_t.
   */
  function ValidateQueryCommands(rpc: RpcIn): bool
  {
    if rpc.payloadSize < QUERY_HEADER_SIZE then false
    else
      var cmds := ToInt32(rpc.nCommands);
      if cmds != 0 then
        var cmdsSize := ToInt32(rpc.payloadSize - QUERY_HEADER_SIZE);
        ToSizeT(cmds) == ToSizeT(cmdsSize) / COMMAND_INFO_SIZE
      else
        true
  }

  /**
   * A query is accepted exactly when it carries at least the query header
   * and either asks for no commands or asks for exactly as many command
   * infos as fit in the rest of the payload (a rest of 2^31 bytes or more
   * turns negative in int and is always refused).
   */
  lemma QueryCommandsIff(rpc: RpcIn)
    ensures ValidateQueryCommands(rpc) <==>
      rpc.payloadSize >= QUERY_HEADER_SIZE &&
      (rpc.nCommands == 0 ||
       (rpc.payloadSize - QUERY_HEADER_SIZE < I32_LIMIT &&
        rpc.nCommands == (rpc.payloadSize - QUERY_HEADER_SIZE) / COMMAND_INFO_SIZE))
  {

  }

  // ---- cxlctl_validate_set_features --------------------------------------

  /** CXL_CMD_{CONFIG,DATA,POLICY,LOG}_CHANGE_IMMEDIATE. */
  predicate ImmediateChange(effects: set<Effect>)
  {
    ConfigChangeImmediate in effects || DataChangeImmediate in effects ||
    PolicyChangeImmediate in effects || LogChangeImmediate in effects
  }

  /** CXL_CMD_CONFIG_CHANGE_COLD_RESET or CXL_CMD_CONFIG_CHANGE_CONV_RESET. */
  predicate ResetChange(effects: set<Effect>)
  {
    ConfigChangeColdReset in effects || ConfigChangeConvReset in effects
  }

  /** The index of the first entry with this UUID, searching from i. */
  function FirstFeature(entries: seq<FeatEntry>, uuid: Uuid, i: nat): (r: Option<nat>)
    requires i <= |entries|
    ensures r.Some? ==>
      i <= r.value < |entries| && entries[r.value].uuid == uuid &&
      forall j :: i <= j < r.value ==> entries[j].uuid != uuid
    ensures r.None? ==> forall j :: i <= j < |entries| ==> entries[j].uuid != uuid
    decreases |entries| - i
  {
    if i == |entries| then None
    else if entries[i].uuid == uuid then Some(i)
    else FirstFeature(entries, uuid, i + 1)
  }

  /** Whether a found feature's effects may be set at this scope. */
  predicate EffectsAllowed(effects: set<Effect>, scope: nat)
  {
    if Background in effects then false
    else if ImmediateChange(effects) && scope >= RPC_DEBUG_WRITE then true
    else ResetChange(effects) && scope >= RPC_DEBUG_READ_ONLY
  }

  /** What cxlctl_validate_set_features decides. */
  predicate SetFeaturesOk(mbox: Mailbox, cmd: SendCmd, userUuid: Option<Uuid>, scope: nat)
  {
    cmd.inSize >= SET_FEATURE_INPUT_SIZE && userUuid.Some? &&
    match FirstFeature(mbox.entries, userUuid.value, 0)
    case None => false
    case Some(i) => EffectsAllowed(mbox.entries[i].effects, scope)
  }

  /**
   * cxlctl_validate_set_features: refuse a payload shorter than the Set
   * Feature input header or one whose UUID cannot be copied; search the
   * feature entries for the UUID; refuse an unknown feature and a
   * background one; accept immediate-change effects from DEBUG_WRITE and
   * reset-time configuration changes from DEBUG_READ_ONLY.
   */
  method ValidateSetFeatures(mbox: Mailbox, cmd: SendCmd, userUuid: Option<Uuid>, scope: nat)
    returns (ok: bool)
    ensures ok == SetFeaturesOk(mbox, cmd, userUuid, scope)
  {
    if cmd.inSize < SET_FEATURE_INPUT_SIZE {
      return false;
    }
    if userUuid.None? {
      return false;
    }
    var uuid := userUuid.value;
    var found := false;
    var feat: FeatEntry;
    var i := 0;
    while i < |mbox.entries|
      invariant 0 <= i <= |mbox.entries|
      invariant FirstFeature(mbox.entries, uuid, 0) == FirstFeature(mbox.entries, uuid, i)
      invariant !found
      decreases |mbox.entries| - i
    {
      feat := mbox.entries[i];
      if feat.uuid == uuid {
        found := true;
        break;
      }
      i := i + 1;
    }
    if !found {
      return false;
    }
    if Background in feat.effects {
      return false;
    }
    if ImmediateChange(feat.effects) && scope >= RPC_DEBUG_WRITE {
      return true;
    }
    if ResetChange(feat.effects) && scope >= RPC_DEBUG_READ_ONLY {
      return true;
    }
    return false;
  }

  /**
   * A set-feature request passes exactly when the payload holds the Set
   * Feature header, the UUID is copied and names a feature, and that
   * feature (the first with the UUID) is not a background one and has an
   * immediate effect at DEBUG_WRITE or above, or a reset-time effect at
   * DEBUG_READ_ONLY or above.
   */
  lemma SetFeaturesIff(mbox: Mailbox, cmd: SendCmd, userUuid: Option<Uuid>, scope: nat)
    ensures SetFeaturesOk(mbox, cmd, userUuid, scope) <==>
      cmd.inSize >= SET_FEATURE_INPUT_SIZE && userUuid.Some? &&
      exists i :: 0 <= i < |mbox.entries| && mbox.entries[i].uuid == userUuid.value &&
        (forall j :: 0 <= j < i ==> mbox.entries[j].uuid != userUuid.value) &&
        Background !in mbox.entries[i].effects &&
        ((ImmediateChange(mbox.entries[i].effects) && scope >= RPC_DEBUG_WRITE) ||
         (ResetChange(mbox.entries[i].effects) && scope >= RPC_DEBUG_READ_ONLY))
  {

  }

  // ---- cxlctl_validate_hw_cmds -------------------------------------------

  /** What cxlctl_validate_hw_cmds decides. */
  predicate HwCmdsOk(mbox: Mailbox, env: Env, cmd: SendCmd, scope: nat)
  {
    |mbox.entries| != 0 && cmd.id in env.commands &&
    var c := env.commands[cmd.id];
    c.infoId !in mbox.enabledCmds && c.infoId !in mbox.exclusiveCmds &&
    if c.opcode == OP_GET_SUPPORTED_FEATURES || c.opcode == OP_GET_FEATURE then scope >= RPC_DEBUG_READ_ONLY
    else if c.opcode == OP_SET_FEATURE then SetFeaturesOk(mbox, cmd, env.userUuid, scope)
    else false
  }

  /**
   * cxlctl_validate_hw_cmds: only feature commands, only with features
   * present, only commands the table knows and the kernel has neither
   * enabled nor reserved; the two Get commands from DEBUG_READ_ONLY, Set
   * Feature by its own rules, nothing else.
   */
  method ValidateHwCmds(mbox: Mailbox, env: Env, cmd: SendCmd, scope: nat) returns (ok: bool)
    ensures ok == HwCmdsOk(mbox, env, cmd, scope)
  {
    if |mbox.entries| == 0 {
      return false;
    }
    if cmd.id !in env.commands {
      return false;
    }
    var c := env.commands[cmd.id];
    if c.infoId in mbox.enabledCmds {
      return false;
    }
    if c.infoId in mbox.exclusiveCmds {
      return false;
    }
    if c.opcode == OP_GET_SUPPORTED_FEATURES || c.opcode == OP_GET_FEATURE {
      if scope >= RPC_DEBUG_READ_ONLY {
        return true;
      }
      return false;
    } else if c.opcode == OP_SET_FEATURE {
      ok := ValidateSetFeatures(mbox, cmd, env.userUuid, scope);
      return;
    }
    return false;
  }

  /** No hardware command gets through at CONFIGURATION scope. */
  lemma HwCmdsNeedDebugScope(mbox: Mailbox, env: Env, cmd: SendCmd, scope: nat)
    requires HwCmdsOk(mbox, env, cmd, scope)
    ensures scope >= RPC_DEBUG_READ_ONLY
  {
  }

  /** A command accepted at one scope is accepted at every wider scope. */
  lemma HwCmdsScopeMonotone(mbox: Mailbox, env: Env, cmd: SendCmd, scope: nat, wider: nat)
    requires HwCmdsOk(mbox, env, cmd, scope) && scope <= wider
    ensures HwCmdsOk(mbox, env, cmd, wider)
  {
  }

  /**
   * The command set the gate lets through: only the two Get commands and
   * Set Feature, and Set Feature only for an effect it knows; a command
   * the kernel has enabled or holds exclusively never passes.
   */
  lemma HwCmdsOnlyFeatures(mbox: Mailbox, env: Env, cmd: SendCmd, scope: nat)
    requires HwCmdsOk(mbox, env, cmd, scope)
    ensures cmd.id in env.commands
    ensures env.commands[cmd.id].opcode in {OP_GET_SUPPORTED_FEATURES, OP_GET_FEATURE, OP_SET_FEATURE}
    ensures env.commands[cmd.id].infoId !in mbox.enabledCmds + mbox.exclusiveCmds
  {
  }

  // ---- cxlctl_validate_rpc and cxlctl_fw_rpc -------------------------------

  /** What cxlctl_validate_rpc decides. */
  predicate RpcOk(mbox: Mailbox, env: Env, rpc: RpcIn, scope: nat)
  {
    if rpc.rpcCmd == QUERY_COMMANDS then ValidateQueryCommands(rpc)
    else if rpc.rpcCmd == SEND_COMMAND then HwCmdsOk(mbox, env, rpc.sendCmd, scope)
    else false
  }

  /** cxlctl_validate_rpc: the query check, the hardware-command check, or refusal. */
  method ValidateRpc(mbox: Mailbox, env: Env, rpc: RpcIn, scope: nat) returns (ok: bool)
    ensures ok == RpcOk(mbox, env, rpc, scope)
  {
    if rpc.rpcCmd == QUERY_COMMANDS {
      return ValidateQueryCommands(rpc);
    } else if rpc.rpcCmd == SEND_COMMAND {
      ok := ValidateHwCmds(mbox, env, rpc.sendCmd, scope);
      return;
    }
    return false;
  }

  /** Every RPC the gate accepts is one of the capabilities open_uctx reports. */
  lemma RpcWithinCaps(mbox: Mailbox, env: Env, rpc: RpcIn, scope: nat)
    requires RpcOk(mbox, env, rpc, scope)
    ensures HasCap(3, rpc.rpcCmd)
  {
  }

  /** The reply buffer and its length (payload_out and size_out of the mailbox command). */
  datatype RpcOut = RpcOut(payload: seq<bv8>, outLen: nat)

  /**
   * send_cxl_command: the mailbox send's error, or its output buffer and
   * length.  rc and mboxOut are what cxl_fwctl_send_cmd produces.
   */
  method SendCxlCommand(rc: Status, mboxOut: RpcOut) returns (r: Result<RpcOut>)
    ensures rc.Failure? ==> r == Err(rc.err)
    ensures rc == Success ==> r == Ok(mboxOut)
  {
    if rc.Failure? {
      return Err(rc.err);
    }
    r := Ok(mboxOut);
  }

  /**
   * cxlctl_fw_rpc: -EPERM for anything validation refuses; otherwise the
   * answer of cxl_query_cmd_from_fwctl (the input query) or of the
   * mailbox send (its status sendRc and output mboxOut).
   */
  method FwRpc(mbox: Mailbox, env: Env, rpc: RpcIn, scope: nat,
               query: Result<RpcOut>, sendRc: Status, mboxOut: RpcOut)
    returns (r: Result<RpcOut>)
    ensures !RpcOk(mbox, env, rpc, scope) ==> r == Err(EPERM)
    ensures RpcOk(mbox, env, rpc, scope) && rpc.rpcCmd == QUERY_COMMANDS ==> r == query
    ensures RpcOk(mbox, env, rpc, scope) && rpc.rpcCmd == SEND_COMMAND ==>
      r == (if sendRc.Failure? then Err(sendRc.err) else Ok(mboxOut))
    ensures r.Err? && r.err == EOPNOTSUPP ==>
      (query == r && rpc.rpcCmd == QUERY_COMMANDS) || (sendRc == Failure(EOPNOTSUPP) && rpc.rpcCmd == SEND_COMMAND)
  {
    var ok := ValidateRpc(mbox, env, rpc, scope);
    if !ok {
      return Err(EPERM);
    }
    if rpc.rpcCmd == QUERY_COMMANDS {
      r := query;
    } else if rpc.rpcCmd == SEND_COMMAND {
      r := SendCxlCommand(sendRc, mboxOut);
    } else {
      assert false;
      r := Err(EOPNOTSUPP);
    }
  }
}
