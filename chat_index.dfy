/** The chat index route
    (plugins/chat/assets/javascripts/discourse/routes/chat-index.js): which
    page `/chat` sends a user to, from the site's preferred index page and
    what the user can see. */
module ChatIndex {
  import opened Options

  /** The site settings the route reads. */
  datatype SiteSettings = SiteSettings(
    chatThreadsEnabled: bool,
    enablePublicChannels: bool,
    chatPreferredIndex: string)

  /** Everything the redirect decision reads: the settings, what the channels
      manager and the chat service report, the user's last channel (the
      `last_chat_channel_id` custom field) and whether the site is in desktop view. */
  datatype Context = Context(
    settings: SiteSettings,
    hasThreadedChannels: bool,
    userCanAccessDirectMessages: bool,
    lastChatChannelId: Option<int>,
    desktopView: bool)

  /** The routes the index can be replaced with. */
  datatype Route =
    | Threads                   // "chat.threads"
    | DirectMessages            // "chat.direct-messages"
    | Channel(channelId: int)   // "chat.channel", for the channel with that id
    | Channels                  // "chat.channels"
    | Browse                    // "chat.browse"

  /** `hasThreads`: there are threaded channels and the site allows threads. */
  function HasThreads(ctx: Context): (r: bool)
    ensures !ctx.settings.chatThreadsEnabled ==> !r
    ensures r <==> ctx.settings.chatThreadsEnabled && ctx.hasThreadedChannels
  {
    if !ctx.settings.chatThreadsEnabled then false else ctx.hasThreadedChannels
  }

  /** `hasDirectMessages`. */
  function HasDirectMessages(ctx: Context): bool {
    ctx.userCanAccessDirectMessages
  }

  /** `isPublicChannelsEnabled`. */
  function IsPublicChannelsEnabled(ctx: Context): bool {
    ctx.settings.enablePublicChannels
  }

  /** JavaScript truthiness of the last channel id: absent and 0 are falsy. */
  predicate LastChannelKnown(id: Option<int>) {
    id.Some? && id.value != 0
  }

  /** `redirect`: each preference is honoured only when the user can use the
      page it names; otherwise, and for any other preference, the user is sent
      to browse. The channels preference opens the last channel on desktop
      when there is one. */
  function Redirect(ctx: Context): (r: Route)
    ensures r == Threads <==>
      ctx.settings.chatPreferredIndex == "my_threads" && HasThreads(ctx)
    ensures r == DirectMessages <==>
      ctx.settings.chatPreferredIndex == "direct_messages" && HasDirectMessages(ctx)
    ensures r.Channel? <==>
      && ctx.settings.chatPreferredIndex == "channels" && IsPublicChannelsEnabled(ctx)
      && LastChannelKnown(ctx.lastChatChannelId) && ctx.desktopView
    ensures r.Channel? ==> Some(r.channelId) == ctx.lastChatChannelId
    ensures r == Channels <==>
      && ctx.settings.chatPreferredIndex == "channels" && IsPublicChannelsEnabled(ctx)
      && !(LastChannelKnown(ctx.lastChatChannelId) && ctx.desktopView)
    ensures r == Browse <==>
      && !(ctx.settings.chatPreferredIndex == "my_threads" && HasThreads(ctx))
      && !(ctx.settings.chatPreferredIndex == "direct_messages" && HasDirectMessages(ctx))
      && !(ctx.settings.chatPreferredIndex == "channels" && IsPublicChannelsEnabled(ctx))
  {
    var preferred := ctx.settings.chatPreferredIndex;
    if preferred == "my_threads" && HasThreads(ctx) then
      Threads
    else if preferred == "direct_messages" && HasDirectMessages(ctx) then
      DirectMessages
    else if preferred == "channels" && IsPublicChannelsEnabled(ctx) then
      if LastChannelKnown(ctx.lastChatChannelId) && ctx.desktopView then
        Channel(ctx.lastChatChannelId.value)
      else
        Channels
    else
      Browse
  }

  /** The chat service's notion of the channel being viewed. */
  class ChatService {
    var activeChannel: Option<int>

    constructor (activeChannel: Option<int>)
      ensures this.activeChannel == activeChannel
    {
      this.activeChannel := activeChannel;
    }
  }

  /** `activate`: entering the index leaves no channel active. */
  method Activate(chat: ChatService)
    modifies chat
    ensures chat.activeChannel.None?
  {
    chat.activeChannel := None;
  }
}
