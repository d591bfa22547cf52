/**
 * A chat message (models/message.py): who may see it, what is shown to a
 * viewer, and the moderation steps that flag, hide, edit or delete it.
 */
module MessageModel {
  import opened Wrappers
  import opened PlayerModel

  datatype MessageType = Text | Voice | System | GameAction | Private | Announcement

  datatype MessageStatus = Sent | Delivered | Read | Hidden | Deleted

  /** One entry of the flags list kept in the message's analysis record. */
  datatype Flag = Flag(reason: string, score: real, at: int)

  /** Shown to a viewer who may not see the message. */
  const NotVisibleText: string := "[رسالة مخفية]"
  /** Shown in place of a hidden message. */
  const HiddenText: string := "[تم إخفاء هذه الرسالة]"
  /** The content a deleted message is left with. */
  const DeletedText: string := "[تم حذف هذه الرسالة]"
  /** The reason recorded when a message is hidden without one. */
  const DefaultHideReason: string := "مخالفة للقوانين"
  /** The suspicion score given when a message is flagged without one. */
  const DefaultSuspicionScore: real := 0.8

  /**
   * The sender is a player of the room with the Mafia role. `roster` maps
   * each user with a player row in the message's room to that row's role.
   */
  predicate IsFromMafia(sender: Option<Id>, roster: map<Id, Option<Role>>)
  {
    sender.Some? && sender.value in roster && roster[sender.value] == Some(Mafia)
  }

  /** The viewer is a player of the room with the Mafia role. */
  predicate ViewerIsMafia(viewer: Option<Id>, roster: map<Id, Option<Role>>)
  {
    viewer.Some? && viewer.value in roster && roster[viewer.value] == Some(Mafia)
  }

  /**
   * The visibility rules, tried in order: deleted messages are seen by
   * nobody, system messages by everybody, hidden ones by their sender,
   * private ones by sender and target, game actions of a Mafia sender by the
   * room's Mafia; everything else by everybody.
   */
  predicate Visible(status: MessageStatus, kind: MessageType, sender: Option<Id>, target: Option<Id>,
                    viewer: Option<Id>, roster: map<Id, Option<Role>>)
  {
    if status == Deleted then false
    else if kind == System then true
    else if status == Hidden then sender == viewer
    else if kind == Private then viewer == sender || viewer == target
    else if kind == GameAction && IsFromMafia(sender, roster) then ViewerIsMafia(viewer, roster)
    else true
  }

  /** What a viewer is shown: a placeholder when the message is not visible, hidden or deleted; else the content. */
  function Display(visible: bool, status: MessageStatus, content: string): string
  {
    if !visible then NotVisibleText
    else if status == Hidden then HiddenText
    else if status == Deleted then DeletedText
    else content
  }

  // ---------------------------------------------------------------------
  // Properties of the visibility rules
  // ---------------------------------------------------------------------

  /** Nobody sees a deleted message, and everybody sees any other system message. */
  lemma DeletedAndSystem(status: MessageStatus, kind: MessageType, sender: Option<Id>, target: Option<Id>,
                         viewer: Option<Id>, roster: map<Id, Option<Role>>)
    ensures status == Deleted ==> !Visible(status, kind, sender, target, viewer, roster)
    ensures status != Deleted && kind == System ==> Visible(status, kind, sender, target, viewer, roster)
  {
  }

  /** A hidden message that is not a system message is visible exactly to its sender. */
  lemma HiddenOnlySender(kind: MessageType, sender: Option<Id>, target: Option<Id>,
                         viewer: Option<Id>, roster: map<Id, Option<Role>>)
    requires kind != System
    ensures Visible(Hidden, kind, sender, target, viewer, roster) <==> viewer == sender
  {
  }

  /** A private message that is neither hidden nor deleted is visible exactly to its sender and its target. */
  lemma PrivateSenderAndTarget(status: MessageStatus, sender: Option<Id>, target: Option<Id>,
                               viewer: Option<Id>, roster: map<Id, Option<Role>>)
    requires status != Hidden && status != Deleted
    ensures Visible(status, Private, sender, target, viewer, roster) <==> viewer == sender || viewer == target
  {
  }

  /**
   * A visible game action of a Mafia sender, neither hidden nor deleted, is
   * visible exactly to the Mafia players of the room.
   */
  lemma MafiaActionOnlyMafia(status: MessageStatus, sender: Option<Id>, target: Option<Id>,
                             viewer: Option<Id>, roster: map<Id, Option<Role>>)
    requires status != Hidden && status != Deleted && IsFromMafia(sender, roster)
    ensures Visible(status, GameAction, sender, target, viewer, roster) <==> ViewerIsMafia(viewer, roster)
  {
  }

  /**
   * Only four kinds of message can be withheld from a viewer: deleted,
   * hidden, private, or a Mafia game action.
   */
  lemma OthersVisibleToAll(status: MessageStatus, kind: MessageType, sender: Option<Id>, target: Option<Id>,
                           viewer: Option<Id>, roster: map<Id, Option<Role>>)
    requires !Visible(status, kind, sender, target, viewer, roster)
    ensures status == Deleted || status == Hidden || kind == Private || (kind == GameAction && IsFromMafia(sender, roster))
  {
  }

  /** Whatever its kind, a message that is not deleted is always visible to its own sender. */
  lemma {:induction false} SenderSeesOwn(status: MessageStatus, kind: MessageType, sender: Option<Id>,
                                         target: Option<Id>, roster: map<Id, Option<Role>>)
    requires status != Deleted
    ensures Visible(status, kind, sender, target, sender, roster)
  {
    if kind != System && status != Hidden && kind != Private && kind == GameAction && IsFromMafia(sender, roster) {
      assert ViewerIsMafia(sender, roster);
    }
  }

  /**
   * A viewer is shown the content itself exactly when the message is
   * visible to them and is neither hidden nor deleted; the deleted
   * placeholder is never chosen, since a deleted message is never visible.
   */
  lemma DisplayShowsContent(status: MessageStatus, kind: MessageType, sender: Option<Id>, target: Option<Id>,
                            viewer: Option<Id>, roster: map<Id, Option<Role>>, content: string)
    requires content != NotVisibleText && content != HiddenText && content != DeletedText
    ensures var d := Display(Visible(status, kind, sender, target, viewer, roster), status, content);
      (d == content <==> Visible(status, kind, sender, target, viewer, roster) && status != Hidden && status != Deleted) &&
      d != DeletedText
  {
  }

  // ---------------------------------------------------------------------
  // The message
  // ---------------------------------------------------------------------

  class Message {
    const roomId: Id
    /** None for a system message. */
    const userId: Option<Id>
    const messageType: MessageType
    /** The `target_user_id` of the metadata record; set for private messages. */
    const targetUserId: Option<Id>
    var content: string
    var status: MessageStatus
    var editedAt: Option<int>
    var suspicionScore: real
    var isFlagged: bool
    var flags: seq<Flag>
    var hiddenReason: Option<string>
    var hiddenAt: Option<int>

    /** A new message, sent, unflagged, with a zero suspicion score. */
    constructor (roomId: Id, content: string, userId: Option<Id>, messageType: MessageType, targetUserId: Option<Id>)
      ensures this.roomId == roomId && this.content == content && this.userId == userId
      ensures this.messageType == messageType && this.targetUserId == targetUserId
      ensures status == Sent && editedAt == None && suspicionScore == 0.0 && !isFlagged && flags == []
      ensures hiddenReason == None && hiddenAt == None
    {
      this.roomId := roomId;
      this.content := content;
      this.userId := userId;
      this.messageType := messageType;
      this.targetUserId := targetUserId;
      status := Sent;
      editedAt := None;
      suspicionScore := 0.0;
      isFlagged := false;
      flags := [];
      hiddenReason := None;
      hiddenAt := None;
    }

    /** `can_be_seen_by`; `roster` gives the roles of the players of this message's room. */
    predicate CanBeSeenBy(viewer: Option<Id>, roster: map<Id, Option<Role>>)
      reads this
    {
      Visible(status, messageType, userId, targetUserId, viewer, roster)
    }

    /** `get_display_content`. */
    function GetDisplayContent(viewer: Option<Id>, roster: map<Id, Option<Role>>): string
      reads this
    {
      Display(CanBeSeenBy(viewer, roster), status, content)
    }

    /**
     * Marks the message as suspicious: the score becomes the larger of the
     * old and the new one, so it never goes down, and one flag is recorded.
     * The score defaults to 0.8.
     */
    method FlagAsSuspicious(reason: string, now: int, score: real := DefaultSuspicionScore)
      modifies this`isFlagged, this`suspicionScore, this`flags
      ensures isFlagged
      ensures suspicionScore == (if old(suspicionScore) >= score then old(suspicionScore) else score)
      ensures suspicionScore >= old(suspicionScore) && suspicionScore >= score
      ensures flags == old(flags) + [Flag(reason, score, now)]
    {
      isFlagged := true;
      if score > suspicionScore {
        suspicionScore := score;
      }
      flags := flags + [Flag(reason, score, now)];
    }

    /**
     * Hides the message and records why and when; afterwards only its
     * sender can see it, unless it is a system message. The reason defaults
     * to the rule-violation text.
     */
    method HideMessage(now: int, reason: string := DefaultHideReason)
      modifies this`status, this`hiddenReason, this`hiddenAt
      ensures status == Hidden && hiddenReason == Some(reason) && hiddenAt == Some(now)
      ensures messageType != System ==>
        forall viewer, roster :: CanBeSeenBy(viewer, roster) <==> viewer == userId
      ensures forall viewer, roster :: CanBeSeenBy(viewer, roster) ==> GetDisplayContent(viewer, roster) == HiddenText
    {
      status := Hidden;
      hiddenReason := Some(reason);
      hiddenAt := Some(now);
    }

    /** Replaces the content and records the edit time; the status is left as it is. */
    method EditContent(newContent: string, now: int)
      modifies this`content, this`editedAt
      ensures content == newContent && editedAt == Some(now)
    {
      content := newContent;
      editedAt := Some(now);
    }

    /** Deletes the message: nobody can see it any more and its content is replaced. */
    method DeleteMessage()
      modifies this`status, this`content
      ensures status == Deleted && content == DeletedText
      ensures forall viewer, roster :: !CanBeSeenBy(viewer, roster)
      ensures forall viewer, roster :: GetDisplayContent(viewer, roster) == NotVisibleText
    {
      status := Deleted;
      content := DeletedText;
    }
  }

  /** `create_system_message`: a message without a sender, of the system kind. */
  method CreateSystemMessage(roomId: Id, content: string) returns (m: Message)
    ensures fresh(m)
    ensures m.roomId == roomId && m.content == content && m.userId == None && m.messageType == System
    ensures m.status == Sent
  {
    m := new Message(roomId, content, None, System, None);
  }

  /** `create_game_action_message`: a game action, with or without a sender. */
  method CreateGameActionMessage(roomId: Id, content: string, userId: Option<Id>) returns (m: Message)
    ensures fresh(m)
    ensures m.roomId == roomId && m.content == content && m.userId == userId && m.messageType == GameAction
    ensures m.status == Sent
  {
    m := new Message(roomId, content, userId, GameAction, None);
  }
}
