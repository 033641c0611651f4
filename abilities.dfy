/** The permission rules (server/src/lib/abilities.ts): the rule list
    `defineAbilitiesFor` builds, and the `can` test of the rule engine, in
    which a `manage` rule grants every action and a rule with conditions
    applies only to subjects whose fields equal the given values. */
module Abilities {
  import opened Results

  type Id = string

  datatype Action = Manage | Create | Read | Update | Delete

  datatype SubjectKind = WorkspaceKind | MemberKind | InviteKind | WaveKind

  /** The four subject classes and the fields they carry (`subjects`). */
  datatype Subject =
    | WorkspaceSubject(id: Id, ownerId: Id)
    | MemberSubject(workspaceId: Id, userId: Id)
    | InviteSubject(workspaceId: Id)
    | WaveSubject(fromUserId: Id, toUserId: Id)
  {
    function Kind(): SubjectKind {
      match this
      case WorkspaceSubject(_, _) => WorkspaceKind
      case MemberSubject(_, _) => MemberKind
      case InviteSubject(_) => InviteKind
      case WaveSubject(_, _) => WaveKind
    }
  }

  /** The field conditions the rules use: none, or one field equal to an id. */
  datatype Condition = Always | UserIdIs(userId: Id) | FromUserIdIs(fromUserId: Id) | ToUserIdIs(toUserId: Id)

  datatype Rule = Rule(action: Action, kind: SubjectKind, condition: Condition)

  datatype UserContext = UserContext(id: Id)

  datatype WorkspaceContext = WorkspaceContext(id: Id, ownerId: Id, isMember: bool)

  /** A condition holds when the subject has the named field with that value. */
  predicate ConditionHolds(c: Condition, s: Subject) {
    match c
    case Always => true
    case UserIdIs(u) => s.MemberSubject? && s.userId == u
    case FromUserIdIs(u) => s.WaveSubject? && s.fromUserId == u
    case ToUserIdIs(u) => s.WaveSubject? && s.toUserId == u
  }

  predicate Matches(r: Rule, action: Action, s: Subject) {
    (r.action == Manage || r.action == action) && r.kind == s.Kind() && ConditionHolds(r.condition, s)
  }

  /** `ability.can(action, subject)`: some rule grants it, so an empty rule
      list grants nothing. */
  function Can(rules: seq<Rule>, action: Action, s: Subject): (b: bool)
    ensures rules == [] ==> !b
  {
    exists i :: 0 <= i < |rules| && Matches(rules[i], action, s)
  }

  /** "manage" stands for every action: a rule for it that holds of the
      subject grants any action on that subject. */
  lemma ManageGrantsEveryAction(rules: seq<Rule>, i: nat, action: Action, s: Subject)
    requires i < |rules| && rules[i].action == Manage && rules[i].kind == s.Kind()
    requires ConditionHolds(rules[i].condition, s)
    ensures Can(rules, action, s)
  {
    assert Matches(rules[i], action, s);
  }

  /** `defineAbilitiesFor(user, workspace?)`: the rules in declaration order.
      The last rule always lets the user create a workspace, and without a
      context it is the only rule. */
  function DefineAbilitiesFor(user: UserContext, workspace: Option<WorkspaceContext>): (rules: seq<Rule>)
    ensures 1 <= |rules| && rules[|rules| - 1] == Rule(Create, WorkspaceKind, Always)
    ensures workspace.None? ==> rules == [Rule(Create, WorkspaceKind, Always)]
  {
    var contextual :=
      if workspace.None? then []
      else
        var isOwner := workspace.value.ownerId == user.id;
        var roleRules :=
          if isOwner then
            [Rule(Manage, WorkspaceKind, Always), Rule(Manage, InviteKind, Always), Rule(Manage, MemberKind, Always)]
          else if workspace.value.isMember then
            [Rule(Read, WorkspaceKind, Always), Rule(Read, MemberKind, Always), Rule(Delete, MemberKind, UserIdIs(user.id))]
          else [];
        var waveRules :=
          if workspace.value.isMember || isOwner then
            [Rule(Create, WaveKind, Always), Rule(Read, WaveKind, FromUserIdIs(user.id)),
             Rule(Read, WaveKind, ToUserIdIs(user.id)), Rule(Update, WaveKind, ToUserIdIs(user.id))]
          else [];
        roleRules + waveRules;
    contextual + [Rule(Create, WorkspaceKind, Always)]
  }

  /** The permissions the rule list is meant to grant, stated per subject
      class rather than as rules. */
  predicate Policy(user: UserContext, workspace: Option<WorkspaceContext>, action: Action, s: Subject) {
    var inContext := workspace.Some?;
    var isOwner := inContext && workspace.value.ownerId == user.id;
    var isMember := inContext && workspace.value.isMember;
    match s
    case WorkspaceSubject(_, _) =>
      action == Create || isOwner || (isMember && action == Read)
    case MemberSubject(_, target) =>
      isOwner || (isMember && (action == Read || (action == Delete && target == user.id)))
    case InviteSubject(_) =>
      isOwner
    case WaveSubject(from, to) =>
      (isOwner || isMember) &&
      (action == Create || (action == Read && (from == user.id || to == user.id)) ||
       (action == Update && to == user.id))
  }

  /** The rule list grants exactly the policy. */
  lemma {:induction false} CanIffPolicy(user: UserContext, workspace: Option<WorkspaceContext>, action: Action, s: Subject)
    ensures Can(DefineAbilitiesFor(user, workspace), action, s) <==> Policy(user, workspace, action, s)
  {
    var rules := DefineAbilitiesFor(user, workspace);
    var last := |rules| - 1;
    assert rules[last] == Rule(Create, WorkspaceKind, Always);
    if workspace.Some? {
      var isOwner := workspace.value.ownerId == user.id;
      var isMember := workspace.value.isMember;
      if isOwner {
        assert rules[0] == Rule(Manage, WorkspaceKind, Always);
        assert rules[1] == Rule(Manage, InviteKind, Always);
        assert rules[2] == Rule(Manage, MemberKind, Always);
        assert rules[3] == Rule(Create, WaveKind, Always);
        assert rules[4] == Rule(Read, WaveKind, FromUserIdIs(user.id));
        assert rules[5] == Rule(Read, WaveKind, ToUserIdIs(user.id));
        assert rules[6] == Rule(Update, WaveKind, ToUserIdIs(user.id));
      } else if isMember {
        assert rules[0] == Rule(Read, WorkspaceKind, Always);
        assert rules[1] == Rule(Read, MemberKind, Always);
        assert rules[2] == Rule(Delete, MemberKind, UserIdIs(user.id));
        assert rules[3] == Rule(Create, WaveKind, Always);
        assert rules[4] == Rule(Read, WaveKind, FromUserIdIs(user.id));
        assert rules[5] == Rule(Read, WaveKind, ToUserIdIs(user.id));
        assert rules[6] == Rule(Update, WaveKind, ToUserIdIs(user.id));
      } else {
        assert rules == [Rule(Create, WorkspaceKind, Always)];
      }
    } else {
      assert rules == [Rule(Create, WorkspaceKind, Always)];
    }
  }

  /** Without a workspace context the only permission is creating a workspace. */
  lemma NoContextOnlyCreateWorkspace(user: UserContext, action: Action, s: Subject)
    ensures Can(DefineAbilitiesFor(user, None), action, s) <==> action == Create && s.WorkspaceSubject?
  {
    CanIffPolicy(user, None, action, s);
  }

  /** Anyone may create a workspace, in any context. */
  lemma AnyoneCreatesWorkspace(user: UserContext, workspace: Option<WorkspaceContext>, s: Subject)
    requires s.WorkspaceSubject?
    ensures Can(DefineAbilitiesFor(user, workspace), Create, s)
  {
    CanIffPolicy(user, workspace, Create, s);
  }

  /** The owner may do everything to workspaces, invites and members. */
  lemma OwnerManagesAll(user: UserContext, ctx: WorkspaceContext, action: Action, s: Subject)
    requires ctx.ownerId == user.id && !s.WaveSubject?
    ensures Can(DefineAbilitiesFor(user, Some(ctx)), action, s)
  {
    CanIffPolicy(user, Some(ctx), action, s);
  }

  /** A member who is not the owner reads the workspace and its members and
      may delete only their own membership; never invites, never a workspace
      update or delete. */
  lemma MemberRights(user: UserContext, ctx: WorkspaceContext, action: Action, s: Subject)
    requires ctx.ownerId != user.id && ctx.isMember && !s.WaveSubject?
    ensures Can(DefineAbilitiesFor(user, Some(ctx)), action, s) <==>
      (s.WorkspaceSubject? && (action == Read || action == Create)) ||
      (s.MemberSubject? && (action == Read || (action == Delete && s.userId == user.id)))
  {
    CanIffPolicy(user, Some(ctx), action, s);
  }

  /** Someone neither owner nor member can only create a workspace. */
  lemma OutsiderOnlyCreatesWorkspace(user: UserContext, ctx: WorkspaceContext, action: Action, s: Subject)
    requires ctx.ownerId != user.id && !ctx.isMember
    ensures Can(DefineAbilitiesFor(user, Some(ctx)), action, s) <==> action == Create && s.WorkspaceSubject?
  {
    CanIffPolicy(user, Some(ctx), action, s);
  }

  /** Wave rights, for the owner or a member only: create any wave, read one
      they sent or received, update one sent to them. */
  lemma WaveRights(user: UserContext, workspace: Option<WorkspaceContext>, action: Action, from: Id, to: Id)
    ensures Can(DefineAbilitiesFor(user, workspace), action, WaveSubject(from, to)) <==>
      workspace.Some? && (workspace.value.ownerId == user.id || workspace.value.isMember) &&
      (action == Create || (action == Read && (from == user.id || to == user.id)) ||
       (action == Update && to == user.id))
  {
    CanIffPolicy(user, workspace, action, WaveSubject(from, to));
  }

  /** No rule compares a workspace id: the context's id and the subjects'
      workspace ids, and a workspace subject's own fields, never matter. */
  lemma WorkspaceIdsIrrelevant(user: UserContext, ctx: WorkspaceContext, otherId: Id, action: Action, s: Subject, s': Subject)
    requires s.Kind() == s'.Kind()
    requires s.MemberSubject? ==> s.userId == s'.userId
    requires s.WaveSubject? ==> s.fromUserId == s'.fromUserId && s.toUserId == s'.toUserId
    ensures Can(DefineAbilitiesFor(user, Some(ctx)), action, s) ==
      Can(DefineAbilitiesFor(user, Some(ctx.(id := otherId))), action, s')
  {
    CanIffPolicy(user, Some(ctx), action, s);
    CanIffPolicy(user, Some(ctx.(id := otherId)), action, s');
  }
}
