/** The topic-timer edit modal
    (app/assets/javascripts/discourse/app/components/modal/edit-topic-timer.js):
    the menu of timer kinds a topic offers, the checks made on the time or
    duration before anything is sent, the folding of "close after last post"
    into "close", and the bookkeeping on the local timer object after the
    server has answered. */
module EditTopicTimer {
  import opened Options

  /** The seven status types the modal knows. */
  datatype StatusType =
    | Close
    | CloseAfterLastPost
    | Open
    | PublishToCategory
    | Delete
    | Bump
    | DeleteReplies

  /** The string each status type travels as. */
  function Identifier(t: StatusType): string {
    match t
    case Close => "close"
    case CloseAfterLastPost => "close_after_last_post"
    case Open => "open"
    case PublishToCategory => "publish_to_category"
    case Delete => "delete"
    case Bump => "bump"
    case DeleteReplies => "delete_replies"
  }

  /** No two status types share an identifier, so comparing identifiers (as
      the modal does) is comparing status types. */
  lemma IdentifiersDistinct(a: StatusType, b: StatusType)
    requires a != b
    ensures Identifier(a) != Identifier(b)
  {
  }

  /** What the modal reads of the topic. `categoryReadRestricted` is false when
      the topic has no category (`category?.read_restricted` is then undefined). */
  datatype Topic = Topic(
    id: int,
    closed: bool,
    canDelete: bool,
    categoryReadRestricted: bool,
    isPrivateMessage: bool,
    invisible: bool)

  /** A topic that is not yet public may be scheduled for publication. */
  predicate MayPublish(topic: Topic) {
    topic.categoryReadRestricted || topic.isPrivateMessage || topic.invisible
  }

  /** The kind a fresh timer starts with: the first entry of the menu. */
  function DefaultStatusType(topic: Topic): StatusType {
    if topic.closed then Open else Close
  }

  /** How many times `t` occurs in `s`. */
  function Occurrences(s: seq<StatusType>, t: StatusType): nat {
    if s == [] then 0 else (if s[0] == t then 1 else 0) + Occurrences(s[1..], t)
  }

  lemma {:induction false} OccurrencesAppend(a: seq<StatusType>, b: seq<StatusType>, t: StatusType)
    ensures Occurrences(a + b, t) == Occurrences(a, t) + Occurrences(b, t)
  {
    if a == [] {
      assert a + b == b;
    } else {
      assert (a + b)[1..] == a[1..] + b;
      OccurrencesAppend(a[1..], b, t);
    }
  }

  /** The timer menu, in the order its entries are pushed: open (when closed)
      or close and close-after-last-post, delete, bump, delete replies, the
      temporary close (when closed) or temporary open, publish. */
  function TimerMenu(topic: Topic): seq<StatusType> {
    (if topic.closed then [Open] else [Close, CloseAfterLastPost])
    + (if topic.canDelete then [Delete] else [])
    + [Bump]
    + (if topic.canDelete then [DeleteReplies] else [])
    + (if topic.closed then [Close] else [Open])
    + (if MayPublish(topic) then [PublishToCategory] else [])
  }

  /** `publicTimerTypes`: the menu of timer kinds, built entry by entry. */
  method PublicTimerTypes(topic: Topic) returns (types: seq<StatusType>)
    ensures types == TimerMenu(topic)
    ensures |types| > 0 && types[0] == DefaultStatusType(topic)
  {
    // the menu's blocks, to check each push against
    ghost var first := if topic.closed then [Open] else [Close, CloseAfterLastPost];
    ghost var delete := if topic.canDelete then [Delete] else [];
    ghost var deleteReplies := if topic.canDelete then [DeleteReplies] else [];
    ghost var temporary := if topic.closed then [Close] else [Open];
    ghost var publish := if MayPublish(topic) then [PublishToCategory] else [];
    assert TimerMenu(topic) == first + delete + [Bump] + deleteReplies + temporary + publish;
    types := [];
    if topic.closed {
      types := types + [Open];
    } else {
      types := types + [Close];
      types := types + [CloseAfterLastPost];
    }
    assert types == first;
    if topic.canDelete {
      types := types + [Delete];
    }
    assert types == first + delete;
    types := types + [Bump];
    if topic.canDelete {
      types := types + [DeleteReplies];
    }
    assert types == first + delete + [Bump] + deleteReplies;
    // the second open/close entry is the temporary open or temporary close
    if topic.closed {
      types := types + [Close];
    } else {
      types := types + [Open];
    }
    assert types == first + delete + [Bump] + deleteReplies + temporary;
    if topic.categoryReadRestricted || topic.isPrivateMessage || topic.invisible {
      types := types + [PublishToCategory];
    }
    assert types == first + delete + [Bump] + deleteReplies + temporary + publish;
    assert types[0] == first[0];
  }

  /** Open, close and bump are offered exactly once; close-after-last-post
      exactly when the topic is open; delete and delete-replies exactly when
      the user may delete; publish exactly when the topic is not yet public. */
  lemma {:induction false} TimerMenuOccurrences(topic: Topic, t: StatusType)
    ensures Occurrences(TimerMenu(topic), t) ==
      match t
      case Open => 1
      case Close => 1
      case Bump => 1
      case CloseAfterLastPost => if topic.closed then 0 else 1
      case Delete => if topic.canDelete then 1 else 0
      case DeleteReplies => if topic.canDelete then 1 else 0
      case PublishToCategory => if MayPublish(topic) then 1 else 0
  {
    var a := if topic.closed then [Open] else [Close, CloseAfterLastPost];
    var b := if topic.canDelete then [Delete] else [];
    var d := if topic.canDelete then [DeleteReplies] else [];
    var e := if topic.closed then [Close] else [Open];
    var f := if MayPublish(topic) then [PublishToCategory] else [];
    assert TimerMenu(topic) == a + b + [Bump] + d + e + f;
    OccurrencesAppend(a, b, t);
    OccurrencesAppend(a + b, [Bump], t);
    OccurrencesAppend(a + b + [Bump], d, t);
    OccurrencesAppend(a + b + [Bump] + d, e, t);
    OccurrencesAppend(a + b + [Bump] + d + e, f, t);
  }

  /** Twenty years in minutes, the largest duration the modal sends. */
  const MaxDurationMinutes: int := 20 * 365 * 1440

  lemma MaxDurationIsTwentyYears()
    ensures MaxDurationMinutes == 10_512_000
  {
  }

  /** The messages `saveTimer` can flash instead of sending. */
  datatype Flash = TimeFrameRequired | MinDuration | MaxDuration

  /** JavaScript truthiness of the time field: null and "" are falsy. */
  predicate TimeGiven(time: Option<string>) {
    time.Some? && time.value != ""
  }

  /** JavaScript truthiness of the duration field: null and 0 are falsy. */
  predicate DurationGiven(duration: Option<int>) {
    duration.Some? && duration.value != 0
  }

  /** The checks `saveTimer` makes before sending: `None` lets the request go,
      `Some(f)` flashes `f` and sends nothing. A duration of 0 is "no time frame",
      not a too-short duration; with a time set, the duration is not checked. */
  function SaveCheck(time: Option<string>, duration: Option<int>): (r: Option<Flash>)
    ensures r == Some(TimeFrameRequired) <==>
      !TimeGiven(time) && (duration.None? || duration.value == 0)
    ensures r == Some(MinDuration) <==>
      !TimeGiven(time) && duration.Some? && duration.value < 0
    ensures r == Some(MaxDuration) <==>
      !TimeGiven(time) && duration.Some? && duration.value > 10_512_000
    ensures r.None? <==>
      TimeGiven(time) || (duration.Some? && 1 <= duration.value <= 10_512_000)
  {
    if !TimeGiven(time) && !DurationGiven(duration) then
      Some(TimeFrameRequired)
    else if DurationGiven(duration) && !TimeGiven(time) then
      if duration.value <= 0 then Some(MinDuration)
      else if duration.value > MaxDurationMinutes then Some(MaxDuration)
      else None
    else
      None
  }

  /** The status type sent to the server: "close after last post" travels as
      "close" (the based-on-last-post flag carries the difference). */
  function SentStatusType(t: StatusType): (r: StatusType)
    ensures r != CloseAfterLastPost
    ensures r == Close <==> t == Close || t == CloseAfterLastPost
    ensures t != CloseAfterLastPost ==> r == t
  {
    if t == CloseAfterLastPost then Close else t
  }

  /** The arguments of one `TopicTimer.update` call. */
  datatype UpdateRequest = UpdateRequest(
    topicId: int,
    time: Option<string>,
    basedOnLastPost: Option<bool>,
    statusType: StatusType,
    categoryId: Option<int>,
    durationMinutes: Option<int>)

  /** How the server answered an update: an error, or the stored timer. */
  datatype UpdateOutcome =
    | UpdateFailed
    | Updated(executeAt: Option<string>, durationMinutes: Option<int>, categoryId: Option<int>, closed: bool)

  /** The topic's local timer object, whose fields the modal sets one by one. */
  class TopicTimer {
    var statusType: StatusType
    var basedOnLastPost: Option<bool>
    var time: Option<string>
    var durationMinutes: Option<int>
    var categoryId: Option<int>
    var executeAt: Option<string>
    var closed: Option<bool>

    /** Every field but the status type is unset. */
    predicate Unset()
      reads this
    {
      && basedOnLastPost.None? && time.None? && durationMinutes.None?
      && categoryId.None? && executeAt.None? && closed.None?
    }

    /** `TopicTimer.create({ status_type })`. */
    constructor (statusType: StatusType)
      ensures this.statusType == statusType && Unset()
    {
      this.statusType := statusType;
      basedOnLastPost, time, durationMinutes := None, None, None;
      categoryId, executeAt, closed := None, None, None;
    }
  }

  /** The modal component: its topic, the topic's current timer object (which
      `createDefaultTimer` replaces), the `loading` and `flash` state, whether
      the modal has been closed, and the update requests sent so far. */
  class EditTopicTimerModal {
    const topic: Topic
    var timer: TopicTimer
    var loading: bool
    var flash: Option<Flash>
    var modalClosed: bool
    var requests: seq<UpdateRequest>

    constructor (topic: Topic, timer: TopicTimer)
      ensures this.topic == topic && this.timer == timer
      ensures !loading && flash.None? && !modalClosed && requests == []
    {
      this.topic, this.timer := topic, timer;
      loading, flash, modalClosed, requests := false, None, false, [];
    }

    /** `createDefaultTimer`: a fresh timer of the menu's first kind becomes the
        topic's timer. */
    method CreateDefaultTimer()
      modifies this`timer
      ensures fresh(timer) && timer.statusType == DefaultStatusType(topic) && timer.Unset()
    {
      var types := PublicTimerTypes(topic);
      timer := new TopicTimer(types[0]);
    }

    /** `setTimer`: sends one update. On success with a time or a duration the
        stored schedule is copied onto the timer and the modal closes; on
        success without either (a removal) the timer is replaced by a default
        one; on failure nothing changes but `loading`. */
    method SetTimer(
      statusType: StatusType,
      time: Option<string>,
      durationMinutes: Option<int>,
      basedOnLastPost: Option<bool>,
      categoryId: Option<int>,
      outcome: UpdateOutcome)
      modifies this, timer
      ensures !loading && flash == old(flash)
      ensures requests == old(requests) +
        [UpdateRequest(topic.id, time, basedOnLastPost, statusType, categoryId, durationMinutes)]
      ensures outcome.UpdateFailed? ==>
        timer == old(timer) && unchanged(timer) && modalClosed == old(modalClosed)
      ensures outcome.Updated? && (TimeGiven(time) || DurationGiven(durationMinutes)) ==>
        && timer == old(timer) && modalClosed
        && timer.executeAt == outcome.executeAt
        && timer.durationMinutes == outcome.durationMinutes
        && timer.categoryId == outcome.categoryId
        && timer.closed == Some(outcome.closed)
        && timer.statusType == old(timer.statusType)
        && timer.basedOnLastPost == old(timer.basedOnLastPost)
        && timer.time == old(timer.time)
      ensures outcome.Updated? && !TimeGiven(time) && !DurationGiven(durationMinutes) ==>
        && fresh(timer) && timer.statusType == DefaultStatusType(topic) && timer.Unset()
        && modalClosed == old(modalClosed) && unchanged(old(timer))
    {
      loading := true;
      requests := requests + [UpdateRequest(topic.id, time, basedOnLastPost, statusType, categoryId, durationMinutes)];
      match outcome {
        case UpdateFailed =>
        case Updated(executeAt, duration, category, closed) =>
          if TimeGiven(time) || DurationGiven(durationMinutes) {
            timer.executeAt := executeAt;
            timer.durationMinutes := duration;
            timer.categoryId := category;
            timer.closed := Some(closed);
            modalClosed := true;
          } else {
            CreateDefaultTimer();
            timer.time := None;
          }
      }
      loading := false;
    }

    /** `onChangeStatusType`: stores the chosen kind and marks the timer as
        based on the last post exactly when that kind is chosen. */
    method OnChangeStatusType(value: StatusType)
      modifies timer
      ensures timer.statusType == value
      ensures timer.basedOnLastPost == Some(value == CloseAfterLastPost)
      ensures timer.time == old(timer.time) && timer.durationMinutes == old(timer.durationMinutes)
      ensures timer.categoryId == old(timer.categoryId) && timer.executeAt == old(timer.executeAt)
      ensures timer.closed == old(timer.closed)
    {
      timer.basedOnLastPost := Some(CloseAfterLastPost == value);
      timer.statusType := value;
    }

    /** `onChangeInput`, for an already formatted time. */
    method OnChangeInput(time: Option<string>)
      modifies timer
      ensures timer.time == time
      ensures timer.statusType == old(timer.statusType) && timer.basedOnLastPost == old(timer.basedOnLastPost)
      ensures timer.durationMinutes == old(timer.durationMinutes) && timer.categoryId == old(timer.categoryId)
      ensures timer.executeAt == old(timer.executeAt) && timer.closed == old(timer.closed)
    {
      timer.time := time;
    }

    /** `saveTimer`: clears the flash, then either flashes what is wrong with
        the time frame and sends nothing, or sends the timer with its kind
        normalised. A request that passes the checks always has a time or a
        duration, so a successful answer is always copied onto the timer. */
    method SaveTimer(outcome: UpdateOutcome)
      modifies this, timer
      ensures var check := SaveCheck(old(timer.time), old(timer.durationMinutes));
        check.Some? ==>
          && flash == check && requests == old(requests)
          && timer == old(timer) && unchanged(timer)
          && loading == old(loading) && modalClosed == old(modalClosed)
      ensures SaveCheck(old(timer.time), old(timer.durationMinutes)).None? ==>
        && flash.None? && !loading && timer == old(timer)
        && requests == old(requests) + [UpdateRequest(
             topic.id, old(timer.time), old(timer.basedOnLastPost),
             SentStatusType(old(timer.statusType)), old(timer.categoryId), old(timer.durationMinutes))]
        && (outcome.UpdateFailed? ==> unchanged(timer) && modalClosed == old(modalClosed))
        && (outcome.Updated? ==>
              && modalClosed
              && timer.executeAt == outcome.executeAt
              && timer.durationMinutes == outcome.durationMinutes
              && timer.categoryId == outcome.categoryId
              && timer.closed == Some(outcome.closed)
              && timer.statusType == old(timer.statusType)
              && timer.basedOnLastPost == old(timer.basedOnLastPost)
              && timer.time == old(timer.time))
    {
      flash := None;
      var check := SaveCheck(timer.time, timer.durationMinutes);
      if check.Some? {
        flash := check;
        return;
      }
      var statusType := timer.statusType;
      if statusType == CloseAfterLastPost {
        statusType := Close;
      }
      SetTimer(statusType, timer.time, timer.durationMinutes, timer.basedOnLastPost, timer.categoryId, outcome);
    }

    /** `removeTimer`: sends the timer's kind (normalised) with no time frame,
        then clears `execute_at` on whatever timer the topic now has. */
    method RemoveTimer(outcome: UpdateOutcome)
      modifies this, timer
      ensures requests == old(requests) +
        [UpdateRequest(topic.id, None, None, SentStatusType(old(timer.statusType)), None, None)]
      ensures !loading && timer.executeAt.None? && modalClosed == old(modalClosed)
      ensures flash == old(flash)
      ensures outcome.Updated? ==>
        && fresh(timer) && timer.statusType == DefaultStatusType(topic) && timer.Unset()
        && unchanged(old(timer))
      ensures outcome.UpdateFailed? ==>
        && timer == old(timer)
        && timer.statusType == old(timer.statusType) && timer.basedOnLastPost == old(timer.basedOnLastPost)
        && timer.time == old(timer.time) && timer.durationMinutes == old(timer.durationMinutes)
        && timer.categoryId == old(timer.categoryId) && timer.closed == old(timer.closed)
    {
      var statusType := timer.statusType;
      if statusType == CloseAfterLastPost {
        statusType := Close;
      }
      SetTimer(statusType, None, None, None, None, outcome);
      timer.executeAt := None;
    }
  }
}
