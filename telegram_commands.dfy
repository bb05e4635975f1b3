/** The replies to the bot's commands. */
module BotCommands {
  const StartReply: string :=
    "\U{1F44B} <b>Welcome to the Terabox "
    + "Downloader Bot!</b>\n\n"
    + "I can help you download videos "
    + "from Terabox URLs.\n\n"
    + "Simply send me a Terabox link, "
    + "and I'll send you the video "
    + "directly with a download link "
    + "included. "
    + "For files larger than 50MB, "
    + "I'll provide a direct download "
    + "link instead.\n\n"
    + "To improve download success, "
    + "you can copy the download link "
    + "and paste it directly in your "
    + "browser's address bar.\n\n"
    + "Type /help to see available commands."

  const HelpReply: string :=
    "\U{1F4D6} <b>Terabox Downloader Bot - Help</b>\n\n"
    + "<b>Available Commands:</b>\n"
    + "/start - Start the bot\n"
    + "/help - Show this help message\n"
    + "/about - About this bot\n\n"
    + "<b>How to use:</b>\n"
    + "1. Send me a Terabox link\n"
    + "2. Wait a moment while I process "
    + "it with animated progress\n"
    + "3. I'll send you the video directly "
    + "with a download link\n"
    + "4. For larger files (over 50MB), "
    + "you'll get a direct download "
    + "link instead\n\n"
    + "<i>Note: Direct links expire "
    + "in a few hours</i>\n"
    + "<i>Note: Video files include "
    + "download links in the caption</i>\n"
    + "<i>Note: For better download "
    + "experience, copy the link and "
    + "paste it directly in your browser</i>"

  const AboutReply: string :=
    "\U{2139}\U{FE0F} <b>About Terabox Downloader Bot</b>\n\n"
    + "This bot helps you download "
    + "videos directly from Terabox "
    + "URLs.\n\n"
    + "It works by processing the Terabox "
    + "page and extracting the direct "
    + "video file, "
    + "allowing you to download it "
    + "directly without going through "
    + "the Terabox website.\n\n"
    + "All videos come with a direct "
    + "download link in the caption. "
    + "For larger files (over 50MB), "
    + "the bot will provide a direct "
    + "download link instead, "
    + "which you can use to download "
    + "the file to your device.\n\n"
    + "For the best download experience, "
    + "copy the download link and paste "
    + "it directly in your browser's "
    + "address bar.\n\n"
    + "The animated progress bar shows "
    + "real-time status of your video "
    + "processing.\n\n"
    + "<i>Made with \U{2764}\U{FE0F}</i>"

  const UnknownReply: string :=
    "Unknown command. Type /help "
    + "to see available commands."

  /** The replies differ in length, hence from one another. */
  lemma ReplyLengths()
    ensures |StartReply| == 424 && |HelpReply| == 590 && |AboutReply| == 668 && |UnknownReply| == 54
  {
    StartReplyLength();
    HelpReplyLength();
    AboutReplyLength();
  }

  lemma StartReplyLength()
    ensures |StartReply| == 424
  {
  }

  lemma HelpReplyLength()
    ensures |HelpReply| == 590
  {
  }

  lemma AboutReplyLength()
    ensures |AboutReply| == 668
  {
  }

  /** The commands with a reply of their own. */
  const KnownCommands: set<string> := {"/start", "/help", "/about"}

  /** `handle_command(command)`: the fixed reply of `/start`, `/help` or
      `/about`, and the unknown-command reply for anything else. */
  function HandleCommand(command: string): (r: string)
    ensures r == UnknownReply <==> command !in KnownCommands
    ensures |r| >= |UnknownReply| > 0
  {
    ReplyLengths();
    if command == "/start" then StartReply
    else if command == "/help" then HelpReply
    else if command == "/about" then AboutReply
    else UnknownReply
  }

  /** The three commands get three different replies. */
  lemma CommandRepliesDistinct()
    ensures HandleCommand("/start") != HandleCommand("/help")
    ensures HandleCommand("/help") != HandleCommand("/about")
    ensures HandleCommand("/start") != HandleCommand("/about")
  {
    ReplyLengths();
  }
}
